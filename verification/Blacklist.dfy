/** The domain part of `blacklist.c`: names whose second-level domain is already listed are not stored. */
module Blacklist {
  const WWW := "www."

  predicate IsWww(s: string) {
    |s| >= |WWW| && s[..|WWW|] == WWW
  }

  function Strip(s: string): string {
    if IsWww(s) then s[|WWW|..] else s
  }

  /** `memrchr` for a dot; -1 if there is none. */
  function LastDot(s: string): (k: int)
    ensures -1 <= k < |s|
    ensures k >= 0 ==> s[k] == '.'
    ensures forall j | k < j < |s| :: s[j] != '.'
  {
    if s == [] then -1
    else if s[|s| - 1] == '.' then |s| - 1
    else LastDot(s[..|s| - 1])
  }

  /** `get_second_level_domain` */
  function SecondLevel(s: string): string {
    var dot := LastDot(s);
    if dot <= 0 then s
    else
      var dot2 := LastDot(s[..dot]);
      if dot2 < 0 then s else s[dot2 + 1..]
  }

  /** The lookups of `blacklist_match_domain` after the prefix is gone. */
  predicate Covers(domains: set<string>, name: string) {
    name in domains || SecondLevel(name) in domains
  }

  predicate Matches(domains: set<string>, domain: string) {
    Covers(domains, Strip(domain))
  }

  /** `blacklist_add_domain`, which strips the prefix and then asks for a match, which strips again. */
  function Added(domains: set<string>, domain: string): set<string> {
    if Matches(domains, Strip(domain)) then domains else domains + {Strip(domain)}
  }

  function Stored(names: seq<string>): set<string> {
    if names == [] then {} else Added(Stored(names[..|names| - 1]), names[|names| - 1])
  }

  /** Every listed name without its prefix. */
  function Naive(names: seq<string>): set<string> {
    set i | 0 <= i < |names| :: Strip(names[i])
  }

  /** The stored names match what the whole list would match. */
  ghost predicate Exact(names: seq<string>) {
    forall domain :: Matches(Stored(names), domain) <==> Matches(Naive(names), domain)
  }

  // ---------------------------------------------------------------------------------------------
  // Second-level domains
  // ---------------------------------------------------------------------------------------------

  function Dots(s: string): nat {
    if s == [] then 0 else Dots(s[..|s| - 1]) + if s[|s| - 1] == '.' then 1 else 0
  }

  lemma {:induction false} DotsConcat(a: string, b: string)
    ensures Dots(a + b) == Dots(a) + Dots(b)
    decreases |b|
  {
    if b == [] {
      assert a + b == a;
    } else {
      var n := |b| - 1;
      assert (a + b)[..|a| + n] == a + b[..n];
      DotsConcat(a, b[..n]);
    }
  }

  lemma {:induction false} NoDots(s: string)
    requires forall j | 0 <= j < |s| :: s[j] != '.'
    ensures Dots(s) == 0
  {
    if s == [] {
    } else {
      NoDots(s[..|s| - 1]);
    }
  }

  lemma DotsBeforeLast(s: string)
    ensures Dots(s) == if LastDot(s) < 0 then 0 else Dots(s[..LastDot(s)]) + 1
  {
    var k := LastDot(s);
    if k < 0 {
      NoDots(s);
    } else {
      assert s == s[..k] + ['.'] + s[k + 1..];
      assert Dots(['.']) == 1;
      DotsConcat(s[..k], ['.']);
      DotsConcat(s[..k] + ['.'], s[k + 1..]);
      NoDots(s[k + 1..]);
    }
  }

  lemma BehindDot(s: string, k: nat)
    requires k < |s| && s[k] == '.'
    ensures Dots(s) == Dots(s[..k]) + 1 + Dots(s[k + 1..])
  {
    assert s == s[..k + 1] + s[k + 1..];
    assert s[..k + 1][..k] == s[..k];
    DotsConcat(s[..k + 1], s[k + 1..]);
  }

  /** `dot` and `dot2` are the last two dots. */
  lemma TwoDots(s: string)
    requires LastDot(s) > 0
    ensures var dot2 := LastDot(s[..LastDot(s)]);
            if dot2 < 0 then Dots(s) == 1 else Dots(s) >= 2 && Dots(s[dot2 + 1..]) == 1 && s[dot2] == '.'
  {
    var dot := LastDot(s);
    var dot2 := LastDot(s[..dot]);
    DotsBeforeLast(s);
    DotsBeforeLast(s[..dot]);
    if dot2 >= 0 {
      BehindDot(s, dot2);
      assert s[..dot][..dot2] == s[..dot2];
    }
    hide Dots, LastDot;
  }

  lemma Tail(s: string, k: nat)
    requires k < |s|
    ensures var t := s[k + 1..]; |t| < |s| && s[|s| - |t|..] == t && s[|s| - |t| - 1] == s[k]
  {
  }

  /** The second-level domain is what stands behind the last dot but one. */
  lemma SecondLevelIs(s: string)
    ensures Dots(s) <= 1 ==> SecondLevel(s) == s
    ensures Dots(s) >= 2 ==> Dots(SecondLevel(s)) == 1 && |SecondLevel(s)| < |s| &&
                             s[|s| - |SecondLevel(s)|..] == SecondLevel(s) && s[|s| - |SecondLevel(s)| - 1] == '.'
  {
    hide Dots, LastDot, SecondLevel;
    if LastDot(s) > 0 {
      TwoDots(s);
      BehindSecondDot(s);
    } else {
      FewDots(s);
    }
  }

  lemma FewDots(s: string)
    requires LastDot(s) <= 0
    ensures Dots(s) <= 1 && SecondLevel(s) == s
  {
    hide LastDot;
    DotsBeforeLast(s);
    assert s[..0] == [];
  }

  lemma SecondLevelParts(s: string)
    requires LastDot(s) > 0
    ensures var dot2 := LastDot(s[..LastDot(s)]); SecondLevel(s) == if dot2 < 0 then s else s[dot2 + 1..]
  {
    hide LastDot;
  }

  lemma BehindSecondDot(s: string)
    requires LastDot(s) > 0
    ensures var dot2 := LastDot(s[..LastDot(s)]);
            if dot2 < 0 then SecondLevel(s) == s
            else
              var t := SecondLevel(s);
              && t == s[dot2 + 1..] && |t| < |s| && s[|s| - |t|..] == t && s[|s| - |t| - 1] == s[dot2]
  {
    hide LastDot, SecondLevel;
    SecondLevelParts(s);
    var dot2 := LastDot(s[..LastDot(s)]);
    if dot2 >= 0 {
      Tail(s, dot2);
    }
  }

  lemma SecondLevelTwice(s: string)
    ensures SecondLevel(SecondLevel(s)) == SecondLevel(s)
  {
    SecondLevelIs(s);
    SecondLevelIs(SecondLevel(s));
  }

  lemma LongerSuffix(s: string, m: nat, n: nat)
    requires m < |s| && n < |s| && s[|s| - m - 1] == '.'
    ensures m < n ==> Dots(s[|s| - n..]) > Dots(s[|s| - m..])
  {
    if m < n {
      BehindDot(s[|s| - n..], n - m - 1);
    }
  }

  lemma SecondLevelOfWww(t: string)
    ensures Dots(WWW + t) == Dots(t) + 1
    ensures Dots(t) == 1 ==> SecondLevel(WWW + t) == t
  {
    var s := WWW + t;
    assert Dots(WWW) == 1 by {
      assert WWW == "www" + ".";
      DotsConcat("www", ".");
      NoDots("www");
    }
    DotsConcat(WWW, t);
    if Dots(t) == 1 {
      SecondLevelIs(s);
      var m := |SecondLevel(s)|;
      LongerSuffix(s, m, |t|);
      LongerSuffix(s, |t|, m);
      hide Dots, SecondLevel;
    }
  }

  /** What a listed name matches: itself, and every name that ends with a dot and it, if it has one dot. */
  ghost predicate Lists(listed: string, name: string) {
    || name == listed
    || (Dots(listed) == 1 && exists i | 0 <= i < |name| :: name[i] == '.' && name[i + 1..] == listed)
  }

  lemma SuffixIsSecondLevel(listed: string, name: string, i: nat)
    requires i < |name| && name[i] == '.' && name[i + 1..] == listed && Dots(listed) == 1
    ensures SecondLevel(name) == listed
  {
    BehindDot(name, i);
    SecondLevelIs(name);
    var m, n := |SecondLevel(name)|, |listed|;
    LongerSuffix(name, m, n);
    LongerSuffix(name, n, m);
    assert name[|name| - n..] == listed;
    hide Dots, SecondLevel;
  }

  lemma ListsExactly(listed: string, name: string)
    ensures Lists(listed, name) <==> listed == name || listed == SecondLevel(name)
  {
    hide Dots, SecondLevel;
    SecondLevelIs(name);
    if i :| 0 <= i < |name| && name[i] == '.' && name[i + 1..] == listed && Dots(listed) == 1 {
      SuffixIsSecondLevel(listed, name, i);
    }
    if listed == SecondLevel(name) != name {
      var i := |name| - |listed| - 1;
      assert name[i] == '.' && name[i + 1..] == listed;
    }
  }

  /** A domain is matched exactly if some stored name lists it, without one "www." in front. */
  lemma MatchesExactly(domains: set<string>, domain: string)
    ensures Matches(domains, domain) <==>
            exists name, listed ::
              && (domain == "www." + name || (domain == name && !IsWww(name)))
              && listed in domains && Lists(listed, name)
  {
    hide SecondLevel, Lists;
    var name := Strip(domain);
    ListsExactly(name, name);
    ListsExactly(SecondLevel(name), name);
    assert domain == "www." + name || (domain == name && !IsWww(name));
    if n, l :| (domain == "www." + n || (domain == n && !IsWww(n))) && l in domains && Lists(l, n) {
      ListsExactly(l, n);
      StripOnce(domain, n);
    }
  }

  lemma StripOnce(domain: string, name: string)
    requires domain == "www." + name || (domain == name && !IsWww(name))
    ensures Strip(domain) == name
  {
  }

  // ---------------------------------------------------------------------------------------------
  // What the compression keeps
  // ---------------------------------------------------------------------------------------------

  /** Names that any list can take: those that do not begin with the prefix twice, and those that do
      and have exactly one more dot. */
  predicate Safe(name: string) {
    IsWww(Strip(name)) ==> Dots(Strip(Strip(name))) == 1
  }

  lemma NaiveNext(names: seq<string>, d: string)
    ensures Naive(names + [d]) == Naive(names) + {Strip(d)}
  {
    var all := names + [d];
    assert all[|names|] == d;
    assert forall i | 0 <= i < |names| :: all[i] == names[i];
    forall s | s in Naive(names) + {Strip(d)}
      ensures s in Naive(all)
    {
      if s in Naive(names) {
        var i :| 0 <= i < |names| && Strip(names[i]) == s;
        assert Strip(all[i]) == s;
      } else {
        assert Strip(all[|names|]) == s;
      }
    }
  }

  /** A name that is not stored adds nothing to what is covered. */
  lemma SkippedIsCovered(domains: set<string>, d: string, name: string)
    requires Safe(d) && Matches(domains, Strip(d)) && Covers({Strip(d)}, name)
    ensures Covers(domains, name)
  {
    var q := Strip(d);
    SecondLevelTwice(name);
    if IsWww(q) {
      assert q == WWW + Strip(q);
      SecondLevelOfWww(Strip(q));
      SecondLevelIs(Strip(q));
      SecondLevelIs(name);
    }
  }

  lemma ExactIsCover(names: seq<string>)
    ensures Exact(names) <==> forall name :: Covers(Stored(names), name) <==> Covers(Naive(names), name)
  {
    if Exact(names) {
      forall name
        ensures Covers(Stored(names), name) <==> Covers(Naive(names), name)
      {
        assert Strip(WWW + name) == name;
        assert Matches(Stored(names), WWW + name) <==> Matches(Naive(names), WWW + name);
      }
    }
  }

  lemma AddingKeepsExact(names: seq<string>, d: string)
    requires Safe(d) && Exact(names)
    ensures Exact(names + [d])
  {
    var all := names + [d];
    assert all[..|names|] == names;
    NaiveNext(names, d);
    ExactIsCover(names);
    forall domain
      ensures Matches(Stored(all), domain) <==> Matches(Naive(all), domain)
    {
      var name := Strip(domain);
      assert Covers(Stored(names), name) <==> Covers(Naive(names), name);
      if Matches(Stored(names), Strip(d)) && Covers({Strip(d)}, name) {
        SkippedIsCovered(Stored(names), d, name);
      }
    }
  }

  /** Any list of safe names, in any order, matches exactly what the whole list would match. */
  lemma {:induction false} CompressionIsExact(names: seq<string>)
    requires forall d | d in names :: Safe(d)
    ensures Exact(names)
  {
    if names == [] {
    } else {
      var n := |names| - 1;
      CompressionIsExact(names[..n]);
      AddingKeepsExact(names[..n], names[n]);
      assert names == names[..n] + [names[n]];
    }
  }

  /** So such a list, stored name by name, matches a domain exactly if some name of it lists the domain,
      both without one "www." in front. */
  lemma ListMatchesExactly(names: seq<string>, domain: string)
    requires forall d | d in names :: Safe(d)
    ensures Matches(Stored(names), domain) <==> exists i | 0 <= i < |names| :: Lists(Strip(names[i]), Strip(domain))
  {
    hide Lists, SecondLevel, Safe;
    CompressionIsExact(names);
    hide Stored;
    var name := Strip(domain);
    forall i | 0 <= i < |names|
      ensures Lists(Strip(names[i]), name) <==> Strip(names[i]) == name || Strip(names[i]) == SecondLevel(name)
    {
      ListsExactly(Strip(names[i]), name);
    }
    assert Matches(Stored(names), domain) <==> Matches(Naive(names), domain);
  }

  /** Every other name spoils a list: the one with itself behind the name it is mistaken for. */
  lemma UnsafeNameIsLost(d: string)
    requires !Safe(d)
    ensures var first := [Strip(d)]; Exact(first) && !Exact(first + [d])
    ensures Matches(Naive([Strip(d), d]), d) && !Matches(Stored([Strip(d), d]), d)
  {
    var q := Strip(d);
    var t := Strip(q);
    assert q == WWW + t;
    var first := [q];
    assert first[..0] == [] && [q, d][..1] == first && first + [d] == [q, d];
    assert Stored([]) == {} && Stored(first) == {t};
    NaiveNext([], q);
    NaiveNext(first, d);
    assert [] + [q] == first;
    assert Naive(first) == {t};
    assert Covers({t}, t);
    assert Stored([q, d]) == {t};
    assert Naive([q, d]) == {t, q} && Covers({t, q}, q);
    SecondLevelOfWww(t);
    SecondLevelIs(q);
    assert |q| > |t|;
    assert !Covers({t}, q);
    assert Matches(Naive([q, d]), d) && !Matches(Stored([q, d]), d);
    assert !Exact([q, d]);
  }

  /** A name may be added to any list without spoiling it exactly if it is safe. */
  lemma SafeNames(d: string)
    ensures Safe(d) <==> forall names :: Exact(names) ==> Exact(names + [d])
  {
    if Safe(d) {
      forall names | Exact(names)
        ensures Exact(names + [d])
      {
        AddingKeepsExact(names, d);
      }
    } else {
      UnsafeNameIsLost(d);
      var first := [Strip(d)];
      assert Exact(first) && !Exact(first + [d]);
    }
  }

  /** The order of the list and repetitions in it do not matter. */
  lemma OrderDoesNotMatter(a: seq<string>, b: seq<string>, domain: string)
    requires (forall d :: d in a <==> d in b) && forall d | d in a :: Safe(d)
    ensures Matches(Stored(a), domain) <==> Matches(Stored(b), domain)
  {
    CompressionIsExact(a);
    CompressionIsExact(b);
    NaiveGrows(a, b);
    NaiveGrows(b, a);
    hide Naive;
    assert Naive(a) == Naive(b);
  }

  lemma NaiveGrows(a: seq<string>, b: seq<string>)
    requires forall d | d in a :: d in b
    ensures Naive(a) <= Naive(b)
  {
    forall s | s in Naive(a)
      ensures s in Naive(b)
    {
      var i :| 0 <= i < |a| && Strip(a[i]) == s;
      assert a[i] in a;
      var j :| 0 <= j < |b| && b[j] == a[i];
      assert Strip(b[j]) == s;
    }
  }

  // ---------------------------------------------------------------------------------------------
  // The entries of the hash
  // ---------------------------------------------------------------------------------------------

  function KeysOf(entries: seq<string>): set<string> {
    set s | s in entries
  }

  ghost predicate Distinct(entries: seq<string>) {
    forall i, j | 0 <= i < j < |entries| :: entries[i] != entries[j]
  }

  /** The same as Added, on the entries of the hash: the source adds one without looking for its key. */
  function Entered(entries: seq<string>, domain: string): seq<string> {
    if Matches(KeysOf(entries), Strip(domain)) then entries else entries + [Strip(domain)]
  }

  lemma EnteredIsAdded(entries: seq<string>, domain: string)
    ensures KeysOf(Entered(entries, domain)) == Added(KeysOf(entries), domain)
  {
  }

  /** A name can get a second entry exactly if it begins with the prefix twice. */
  lemma EnteredOnce(d: string)
    ensures !IsWww(Strip(d)) <==> forall entries :: Distinct(entries) ==> Distinct(Entered(entries, d))
  {
    var q := Strip(d);
    if IsWww(q) {
      var t := Strip(q);
      SecondLevelIs(t);
      assert |t| < |q|;
      assert KeysOf([q]) == {q};
      assert !Matches({q}, q);
      assert Entered([q], d) == [q, q];
      assert Distinct([q]) && [q, q][0] == [q, q][1];
    }
  }

  // ---------------------------------------------------------------------------------------------
  // The list that is updated in place
  // ---------------------------------------------------------------------------------------------

  class List {
    var domains: seq<string>
    var numDomains: nat

    ghost predicate Valid()
      reads this
    {
      numDomains == |domains|
    }

    constructor ()
      ensures Valid() && domains == []
    {
      domains, numDomains := [], 0;
    }

    method MatchDomain(domain: string) returns (found: bool)
      ensures found == Matches(KeysOf(domains), domain)
    {
      var name := domain;
      if IsWww(name) {
        name := name[|WWW|..];
      }
      if name in domains {
        return true;
      }
      SecondLevelIs(name);
      var domain2 := SecondLevel(name);
      if |domain2| != |name| {
        if domain2 in domains {
          return true;
        }
      }
      return false;
    }

    /** `duplicate` stands for the result -EADDRINUSE. */
    method AddDomain(domain: string) returns (duplicate: bool)
      requires Valid()
      modifies this
      ensures Valid() && domains == Entered(old(domains), domain)
      ensures KeysOf(domains) == Added(KeysOf(old(domains)), domain)
      ensures duplicate <==> domains == old(domains)
    {
      EnteredIsAdded(domains, domain);
      var name := domain;
      if IsWww(name) {
        name := name[|WWW|..];
      }
      var found := MatchDomain(name);
      if found {
        return true;
      }
      domains := domains + [name];
      numDomains := numDomains + 1;
      return false;
    }
  }
}
