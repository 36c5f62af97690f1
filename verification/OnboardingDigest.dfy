/**
 The deduplication keys of backend/src/msai/api/symbol_onboarding.py. The hash is taken to be
 injective, so a key is represented by the list of parts that is hashed.
 */
module OnboardingDigest {
  import opened Wrappers
  import opened Ordering

  /** One requested symbol; the dates are in ISO format. */
  datatype Spec = Spec(symbol: string, assetClass: string, start: string, end: string)

  datatype Request = Request(watchlist: string, symbols: seq<Spec>, live: bool, ceiling: Option<string>)

  type Digest = seq<string>

  /** Field formats enforced by the request schema: no separator inside a field, no pair twice. */
  ghost predicate WellFormed(r: Request) {
    && (forall s :: s in r.symbols ==> '|' !in s.symbol && '|' !in s.assetClass && '|' !in s.start)
    && (forall i, j :: 0 <= i < j < |r.symbols| ==>
          !(r.symbols[i].symbol == r.symbols[j].symbol && r.symbols[i].assetClass == r.symbols[j].assetClass))
    && r.ceiling != Some("no_ceiling")
  }

  function Canonical(s: Spec): string { s.symbol + "|" + (s.assetClass + "|" + (s.start + "|" + s.end)) }

  /** The sort key is the pair `(asset_class, symbol)`. */
  predicate SpecLe(a: Spec, b: Spec) {
    if a.assetClass == b.assetClass then StringLe(a.symbol, b.symbol) else StringLe(a.assetClass, b.assetClass)
  }

  function Map<A, B>(f: A -> B, s: seq<A>): (r: seq<B>)
    ensures |r| == |s| && forall i :: 0 <= i < |s| ==> r[i] == f(s[i])
  {
    if s == [] then [] else [f(s[0])] + Map(f, s[1..])
  }

  function Header(r: Request): seq<string> {
    ["symbol_onboarding", r.watchlist, if r.live then "True" else "False",
     if r.ceiling.Some? then r.ceiling.value else "no_ceiling"]
  }

  function DedupKey(r: Request): Digest { Header(r) + Map(Canonical, Sort(SpecLe, r.symbols)) }

  function RepairKey(watchlist: string, parent: string, targets: seq<string>): Digest {
    ["symbol_onboarding", watchlist + "-repair", "repair:" + parent] + Sort(StringLe, targets)
  }

  lemma SpecOrder()
    ensures TotalPreorder(SpecLe)
  {
    StringLeOrder();
  }

  /** The requested symbols in the order of asset class and then symbol. */
  ghost predicate Arranged(order: seq<Spec>, symbols: seq<Spec>) {
    && multiset(order) == multiset(symbols)
    && forall i, j :: 0 <= i < j < |order| ==>
         if order[i].assetClass == order[j].assetClass then StringLe(order[i].symbol, order[j].symbol)
         else StringLe(order[i].assetClass, order[j].assetClass)
  }

  /** The parts of an onboarding's key: namespace, watchlist, live flag, ceiling and one line per symbol, in order. */
  lemma DedupKeyExact(r: Request) returns (order: seq<Spec>)
    ensures Arranged(order, r.symbols)
    ensures |DedupKey(r)| == 4 + |order|
    ensures DedupKey(r)[..4] == ["symbol_onboarding", r.watchlist, if r.live then "True" else "False",
                                 match r.ceiling case Some(text) => text case None => "no_ceiling"]
    ensures forall i :: 0 <= i < |order| ==>
              DedupKey(r)[4 + i]
              == order[i].symbol + "|" + order[i].assetClass + "|" + order[i].start + "|" + order[i].end
  {
    order := Sort(SpecLe, r.symbols);
    SpecOrder();
    SortSorts(SpecLe, r.symbols);
    SortPermutes(SpecLe, r.symbols);
    forall i | 0 <= i < |order|
      ensures Canonical(order[i])
              == order[i].symbol + "|" + order[i].assetClass + "|" + order[i].start + "|" + order[i].end
    {
      CanonicalText(order[i]);
    }
  }

  lemma CanonicalText(s: Spec)
    ensures Canonical(s) == s.symbol + "|" + s.assetClass + "|" + s.start + "|" + s.end
  {
  }

  /** The parts of a repair's key: namespace, watchlist, the run repaired, and the symbols to retry, in order. */
  lemma RepairKeyExact(watchlist: string, parent: string, targets: seq<string>) returns (order: seq<string>)
    ensures multiset(order) == multiset(targets) && Sorted(StringLe, order)
    ensures RepairKey(watchlist, parent, targets)
            == ["symbol_onboarding", watchlist + "-repair", "repair:" + parent] + order
  {
    order := Sort(StringLe, targets);
    StringLeOrder();
    SortSorts(StringLe, targets);
    SortPermutes(StringLe, targets);
  }

  lemma SplitAtBar(a: string, x: string, b: string, y: string)
    requires '|' !in a && '|' !in b && a + "|" + x == b + "|" + y
    ensures a == b && x == y
  {
    var s := a + "|" + x;
    assert forall i :: 0 <= i < |a| ==> s[i] == a[i];
    assert forall i :: 0 <= i < |b| ==> s[i] == b[i];
    assert s[|a|] == '|' && s[|b|] == '|';
    assert |a| == |b|;
    assert s[..|a|] == a && s[..|b|] == b;
    assert s[|a| + 1..] == x && s[|b| + 1..] == y;
  }

  lemma CanonicalInjective(a: Spec, b: Spec)
    requires '|' !in a.symbol && '|' !in a.assetClass && '|' !in a.start
    requires '|' !in b.symbol && '|' !in b.assetClass && '|' !in b.start
    requires Canonical(a) == Canonical(b)
    ensures a == b
  {
    SplitAtBar(a.symbol, a.assetClass + "|" + (a.start + "|" + a.end),
               b.symbol, b.assetClass + "|" + (b.start + "|" + b.end));
    SplitAtBar(a.assetClass, a.start + "|" + a.end, b.assetClass, b.start + "|" + b.end);
    SplitAtBar(a.start, a.end, b.start, b.end);
  }

  /** Distinct pairs can be told apart by the sort key. */
  lemma SpecsSeparated(r: Request)
    requires WellFormed(r)
    ensures Separates(SpecLe, r.symbols)
  {
    StringLeOrder();
  }

  /**
   Two requests have the same key exactly when they agree on everything but the order of their
   symbols.
   */
  lemma SameKeyExact(a: Request, b: Request)
    requires WellFormed(a) && WellFormed(b)
    ensures DedupKey(a) == DedupKey(b)
            <==> a.watchlist == b.watchlist && a.live == b.live && a.ceiling == b.ceiling
                 && multiset(a.symbols) == multiset(b.symbols)
  {
    if a.watchlist == b.watchlist && a.live == b.live && a.ceiling == b.ceiling
       && multiset(a.symbols) == multiset(b.symbols) {
      SpecOrder();
      SpecsSeparated(a);
      SortCanonical(SpecLe, a.symbols, b.symbols);
    }
    if DedupKey(a) == DedupKey(b) {
      SameKeySameRequest(a, b);
    }
  }

  lemma SameKeySameRequest(a: Request, b: Request)
    requires WellFormed(a) && WellFormed(b) && DedupKey(a) == DedupKey(b)
    ensures a.watchlist == b.watchlist && a.live == b.live && a.ceiling == b.ceiling
    ensures multiset(a.symbols) == multiset(b.symbols)
  {
    hide Map;
    hide Sort;
    hide Canonical;
    var p, q := Sort(SpecLe, a.symbols), Sort(SpecLe, b.symbols);
    SortPermutes(SpecLe, a.symbols);
    SortPermutes(SpecLe, b.symbols);
    assert DedupKey(a)[..4] == Header(a) && DedupKey(b)[..4] == Header(b);
    assert DedupKey(a)[4..] == Map(Canonical, p) && DedupKey(b)[4..] == Map(Canonical, q);
    SameHeader(a, b);
    forall i | 0 <= i < |p| ensures p[i] == q[i] {
      assert p[i] in multiset(p) && q[i] in multiset(q);
      assert p[i] in multiset(a.symbols) && q[i] in multiset(b.symbols);
      assert Map(Canonical, p)[i] == Map(Canonical, q)[i];
      CanonicalInjective(p[i], q[i]);
    }
    assert p == q;
  }

  lemma SameHeader(a: Request, b: Request)
    requires WellFormed(a) && WellFormed(b) && Header(a) == Header(b)
    ensures a.watchlist == b.watchlist && a.live == b.live && a.ceiling == b.ceiling
  {
    assert Header(a)[1] == Header(b)[1];
    assert Header(a)[2] == Header(b)[2];
    assert |"True"| == 4 && |"False"| == 5;
    assert Header(a)[3] == Header(b)[3];
  }

  /** A repair never has the key of an onboarding. */
  lemma RepairKeyDiffers(r: Request, watchlist: string, parent: string, targets: seq<string>)
    ensures DedupKey(r) != RepairKey(watchlist, parent, targets)
  {
    assert DedupKey(r)[2] == Header(r)[2];
    var repair := RepairKey(watchlist, parent, targets)[2];
    assert repair == "repair:" + parent && repair[0] == 'r';
  }

  /** Two repairs share a key exactly when they retry the same symbols of the same run. */
  lemma SameRepairKeyExact(
    watchlist: string, parent: string, targets: seq<string>,
    watchlist': string, parent': string, targets': seq<string>)
    ensures RepairKey(watchlist, parent, targets) == RepairKey(watchlist', parent', targets')
            <==> watchlist == watchlist' && parent == parent' && multiset(targets) == multiset(targets')
  {
    var a, b := RepairKey(watchlist, parent, targets), RepairKey(watchlist', parent', targets');
    StringLeOrder();
    SortPermutes(StringLe, targets);
    SortPermutes(StringLe, targets');
    if multiset(targets) == multiset(targets') { SortCanonical(StringLe, targets, targets'); }
    if a == b {
      assert a[3..] == Sort(StringLe, targets) && b[3..] == Sort(StringLe, targets');
      SuffixCut(watchlist, watchlist', "-repair");
      assert a[2] == b[2];
      assert ("repair:" + parent)[7..] == parent && ("repair:" + parent')[7..] == parent';
    }
  }

  lemma SuffixCut(a: string, b: string, suffix: string)
    ensures a + suffix == b + suffix ==> a == b
  {
    if a + suffix == b + suffix {
      assert |a| == |b|;
      assert (a + suffix)[..|a|] == a && (b + suffix)[..|b|] == b;
    }
  }
}
