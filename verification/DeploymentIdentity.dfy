/**
 The identity backfill of backend/alembic/versions/c1d2e3f4a5b6_live_deployments_stable_identity.py: a
 check for colliding identities, and the backfill that the unique index afterwards relies on. The hashes
 are taken to be injective, so a signature is represented by the record that is hashed, and a config
 hash by the config.
 */
module DeploymentIdentity {
  import opened Wrappers
  import opened Ordering

  /** A JSON object; each value is given by its canonical text. */
  type Config = map<string, string>

  datatype Strategy = Strategy(className: Option<string>, defaultConfig: Option<Config>)

  datatype Signature = Signature(
    startedBy: string, strategyId: string, codeHash: string, config: Config,
    account: string, paperTrading: bool, instruments: string)

  /** The columns that the backfill fills in. */
  datatype Identity = Identity(
    slug: string, signature: Signature, traderId: string, strategyIdFull: string, account: string, stream: string,
    config: Config, instruments: string, lastStartedAt: Option<int>, lastStoppedAt: Option<int>)

  datatype Deployment = Deployment(
    id: nat, strategyId: string, codeHash: string, config: Option<Config>, instruments: Option<seq<string>>,
    paperTrading: bool, startedBy: Option<string>, startedAt: Option<int>, stoppedAt: Option<int>,
    identity: Option<Identity>)

  function OrEmpty(config: Option<Config>): Config { if config.Some? then config.value else map[] }

  /** The row's config over the strategy's defaults. */
  function Normalized(config: Option<Config>, defaults: Option<Config>): Config {
    if OrEmpty(defaults) == map[] then OrEmpty(config) else defaults.value + OrEmpty(config)
  }

  function Join(names: seq<string>): string {
    if names == [] then "" else if |names| == 1 then names[0] else names[0] + ("," + Join(names[1..]))
  }

  function InstrumentsSignature(instruments: Option<seq<string>>): string {
    Join(Sort(StringLe, if instruments.Some? then instruments.value else []))
  }

  /** The default config of the row's strategy, if there is such a strategy. */
  function DefaultsOf(d: Deployment, strategies: map<string, Strategy>): Option<Config> {
    if d.strategyId in strategies then strategies[d.strategyId].defaultConfig else None
  }

  function SignatureOf(d: Deployment, strategies: map<string, Strategy>, account: string): Signature {
    Signature(if d.startedBy.Some? then d.startedBy.value else "", d.strategyId, d.codeHash,
              Normalized(d.config, DefaultsOf(d, strategies)), account, d.paperTrading,
              InstrumentsSignature(d.instruments))
  }

  /** The rows with one signature, in order. */
  function IdsWith(rows: seq<Deployment>, strategies: map<string, Strategy>, account: string,
                   sig: Signature): seq<nat> {
    if rows == [] then []
    else
      var last := rows[|rows| - 1];
      IdsWith(rows[..|rows| - 1], strategies, account, sig)
      + if SignatureOf(last, strategies, account) == sig then [last.id] else []
  }

  ghost predicate SignaturesDistinct(rows: seq<Deployment>, strategies: map<string, Strategy>, account: string) {
    forall i, j :: 0 <= i < j < |rows| ==>
      SignatureOf(rows[i], strategies, account) != SignatureOf(rows[j], strategies, account)
  }

  /**
   Groups the rows by signature. No collision is reported exactly if all signatures differ; otherwise
   every shared signature is reported with all of its rows.
   */
  method DetectCollisions(rows: seq<Deployment>, strategies: map<string, Strategy>, account: string)
    returns (collisions: map<Signature, seq<nat>>)
    ensures collisions == map[] <==> SignaturesDistinct(rows, strategies, account)
    ensures forall sig :: sig in collisions <==> |IdsWith(rows, strategies, account, sig)| > 1
    ensures forall sig :: sig in collisions ==> collisions[sig] == IdsWith(rows, strategies, account, sig)
  {
    hide SignatureOf;
    hide SignaturesDistinct;
    hide IdsWith;
    NothingWith(strategies, account);
    var groups: map<Signature, seq<nat>> := map[];
    var i := 0;
    while i < |rows|
      invariant 0 <= i <= |rows|
      invariant forall sig :: sig in groups <==> IdsWith(rows[..i], strategies, account, sig) != []
      invariant forall sig :: sig in groups ==> groups[sig] == IdsWith(rows[..i], strategies, account, sig)
    {
      var sig := SignatureOf(rows[i], strategies, account);
      var ids := if sig in groups then groups[sig] else [];
      groups := groups[sig := ids + [rows[i].id]];
      assert rows[..i + 1] == rows[..i] + [rows[i]];
      IdsSnoc(rows[..i], rows[i], strategies, account);
      i := i + 1;
    }
    assert rows[..|rows|] == rows;
    collisions := map sig | sig in groups && |groups[sig]| > 1 :: groups[sig];
    NoCollisionExactly(rows, strategies, account, collisions);
  }

  lemma NothingWith(strategies: map<string, Strategy>, account: string)
    ensures forall sig :: IdsWith([], strategies, account, sig) == []
  {
  }

  lemma IdsSnoc(rows: seq<Deployment>, last: Deployment, strategies: map<string, Strategy>, account: string)
    ensures forall sig ::
              IdsWith(rows + [last], strategies, account, sig)
              == IdsWith(rows, strategies, account, sig)
                 + if SignatureOf(last, strategies, account) == sig then [last.id] else []
  {
    hide SignatureOf;
    assert (rows + [last])[..|rows|] == rows;
  }

  lemma {:induction false} NoneWith(rows: seq<Deployment>, strategies: map<string, Strategy>, account: string,
                                    sig: Signature)
    ensures IdsWith(rows, strategies, account, sig) == []
            <==> forall i :: 0 <= i < |rows| ==> SignatureOf(rows[i], strategies, account) != sig
  {
    hide SignatureOf;
    if rows != [] { NoneWith(rows[..|rows| - 1], strategies, account, sig); }
  }

  /** Two rows of one signature are both listed under it. */
  lemma {:induction false} TwoWith(rows: seq<Deployment>, strategies: map<string, Strategy>, account: string, i: nat,
                                   j: nat)
    requires i < j < |rows| && SignatureOf(rows[i], strategies, account) == SignatureOf(rows[j], strategies, account)
    ensures |IdsWith(rows, strategies, account, SignatureOf(rows[i], strategies, account))| >= 2
  {
    hide SignatureOf;
    var init := rows[..|rows| - 1];
    NoneWith(init, strategies, account, SignatureOf(rows[i], strategies, account));
    assert init[i] == rows[i];
    if j < |init| { TwoWith(init, strategies, account, i, j); }
  }

  lemma {:induction false} OneWith(rows: seq<Deployment>, strategies: map<string, Strategy>, account: string,
                                   sig: Signature)
    requires SignaturesDistinct(rows, strategies, account)
    ensures |IdsWith(rows, strategies, account, sig)| <= 1
  {
    hide SignatureOf;
    if rows != [] {
      var init := rows[..|rows| - 1];
      NoneWith(init, strategies, account, sig);
      assert forall i :: 0 <= i < |init| ==> init[i] == rows[i];
      OneWith(init, strategies, account, sig);
    }
  }

  lemma NoCollisionExactly(rows: seq<Deployment>, strategies: map<string, Strategy>, account: string,
                           collisions: map<Signature, seq<nat>>)
    requires forall sig :: sig in collisions <==> |IdsWith(rows, strategies, account, sig)| > 1
    ensures collisions == map[] <==> SignaturesDistinct(rows, strategies, account)
  {
    hide SignatureOf;
    hide IdsWith;
    if SignaturesDistinct(rows, strategies, account) {
      forall sig ensures sig !in collisions { OneWith(rows, strategies, account, sig); }
      assert collisions == map[];
    } else {
      var i, j :| 0 <= i < j < |rows|
                  && SignatureOf(rows[i], strategies, account) == SignatureOf(rows[j], strategies, account);
      TwoWith(rows, strategies, account, i, j);
      assert SignatureOf(rows[i], strategies, account) in collisions;
    }
  }

  // ---- The backfill

  function Filled(d: Deployment, strategies: map<string, Strategy>, account: string, slug: string): Deployment {
    var className := if d.strategyId in strategies && strategies[d.strategyId].className.Some?
                        && strategies[d.strategyId].className.value != ""
                     then strategies[d.strategyId].className.value else "UnknownStrategy";
    var traderId := "MSAI-" + slug;
    d.(identity := Some(Identity(
      slug, SignatureOf(d, strategies, account), traderId, className + "-" + slug, account,
      "trader-" + traderId + "-stream",
      Normalized(d.config, DefaultsOf(d, strategies)), InstrumentsSignature(d.instruments), d.startedAt, d.stoppedAt)))
  }

  /** The config column: a key has the row's own value, and otherwise the default of the row's strategy. */
  ghost predicate ConfigSays(filled: Config, d: Deployment, strategies: map<string, Strategy>) {
    forall key ::
      if d.config.Some? && key in d.config.value then key in filled && filled[key] == d.config.value[key]
      else if d.strategyId in strategies && strategies[d.strategyId].defaultConfig.Some?
              && key in strategies[d.strategyId].defaultConfig.value
      then key in filled && filled[key] == strategies[d.strategyId].defaultConfig.value[key]
      else key !in filled
  }

  /** The instruments column: the row's instruments in order of their code points, with commas between them. */
  ghost predicate InstrumentsSay(text: string, d: Deployment) {
    exists names: seq<string> ::
      && multiset(names) == multiset(match d.instruments case Some(list) => list case None => [])
      && Sorted(StringLe, names) && text == Join(names)
  }

  /** The qualified name starts with the class of the row's strategy, if that is known. */
  ghost predicate NameSays(full: string, d: Deployment, strategies: map<string, Strategy>, slug: string) {
    if d.strategyId in strategies && strategies[d.strategyId].className !in {None, Some("")}
    then full == strategies[d.strategyId].className.value + "-" + slug
    else full == "UnknownStrategy-" + slug
  }

  /** Every column that the backfill writes, in terms of the row, its strategy, the account and the slug. */
  ghost predicate FilledSays(d': Deployment, d: Deployment, strategies: map<string, Strategy>, account: string,
                             slug: string) {
    && d'.identity.Some? && d' == d.(identity := d'.identity)
    && var x := d'.identity.value;
       && x.slug == slug && x.traderId == "MSAI-" + slug && x.stream == "trader-MSAI-" + slug + "-stream"
       && x.account == account && x.lastStartedAt == d.startedAt && x.lastStoppedAt == d.stoppedAt
       && NameSays(x.strategyIdFull, d, strategies, slug)
       && ConfigSays(x.config, d, strategies) && InstrumentsSay(x.instruments, d)
       && x.signature == Signature(match d.startedBy case Some(user) => user case None => "", d.strategyId, d.codeHash,
                                   x.config, account, d.paperTrading, x.instruments)
  }

  lemma FilledExact(d: Deployment, strategies: map<string, Strategy>, account: string, slug: string)
    ensures FilledSays(Filled(d, strategies, account, slug), d, strategies, account, slug)
  {
    ConfigExact(d, strategies);
    InstrumentsSorted(d);
    hide ConfigSays;
    hide InstrumentsSay;
    hide Normalized;
    hide InstrumentsSignature;
    assert "trader-" + ("MSAI-" + slug) + "-stream" == "trader-MSAI-" + slug + "-stream";
  }

  lemma ConfigExact(d: Deployment, strategies: map<string, Strategy>)
    ensures ConfigSays(Normalized(d.config, DefaultsOf(d, strategies)), d, strategies)
  {
  }

  lemma InstrumentsSorted(d: Deployment)
    ensures InstrumentsSay(InstrumentsSignature(d.instruments), d)
  {
    var names := if d.instruments.Some? then d.instruments.value else [];
    StringLeOrder();
    SortSorts(StringLe, names);
    SortPermutes(StringLe, names);
    assert multiset(Sort(StringLe, names)) == multiset(match d.instruments case Some(list) => list case None => []);
  }

  /** Joining puts one comma between any two parts. */
  lemma {:induction false} JoinExact(a: seq<string>, b: seq<string>)
    ensures Join([]) == "" && (|a| == 1 ==> Join(a) == a[0])
    ensures a != [] && b != [] ==> Join(a + b) == Join(a) + "," + Join(b)
  {
    if a != [] && b != [] {
      assert (a + b)[0] == a[0];
      if |a| == 1 {
        assert (a + b)[1..] == b;
      } else {
        JoinExact(a[1..], b);
        assert (a + b)[1..] == a[1..] + b;
      }
    }
  }

  ghost predicate UniqueIds(rows: seq<Deployment>) {
    forall i, j :: 0 <= i < j < |rows| ==> rows[i].id != rows[j].id
  }

  /** Every row has a signature, and no two rows the same: what the unique index demands. */
  ghost predicate Indexable(rows: seq<Deployment>) {
    && (forall i :: 0 <= i < |rows| ==> rows[i].identity.Some?)
    && forall i, j :: 0 <= i < j < |rows| ==> rows[i].identity.value.signature != rows[j].identity.value.signature
  }

  class LiveDeployments {
    var rows: seq<Deployment>
    const strategies: map<string, Strategy>
    const account: string

    constructor (rows: seq<Deployment>, strategies: map<string, Strategy>, account: string)
      ensures this.rows == rows && this.strategies == strategies && this.account == account
    {
      this.rows, this.strategies, this.account := rows, strategies, account;
    }

    /** `UPDATE ... WHERE id = :id` */
    method UpdateWhere(id: nat, filled: Deployment)
      requires filled.id == id
      modifies this`rows
      ensures |rows| == |old(rows)|
      ensures forall i :: 0 <= i < |rows| ==> rows[i] == if old(rows)[i].id == id then filled else old(rows)[i]
    {
      var table := rows;
      rows := seq(|table|, i requires 0 <= i < |table| => if table[i].id == id then filled else table[i]);
    }

    /** Fills in every row; `slugs` are the random tokens drawn. */
    method Backfill(slugs: nat -> string)
      requires UniqueIds(rows)
      modifies this`rows
      ensures |rows| == |old(rows)|
      ensures forall i :: 0 <= i < |rows| ==> rows[i] == Filled(old(rows)[i], strategies, account, slugs(i))
      ensures forall i :: 0 <= i < |rows| ==> FilledSays(rows[i], old(rows)[i], strategies, account, slugs(i))
    {
      hide Filled;
      hide FilledSays;
      var selected := rows;
      var k := 0;
      while k < |selected|
        invariant 0 <= k <= |selected| == |rows|
        invariant forall i :: 0 <= i < k ==> rows[i] == Filled(selected[i], strategies, account, slugs(i))
        invariant forall i :: k <= i < |rows| ==> rows[i] == selected[i]
        invariant forall i :: 0 <= i < |rows| ==> rows[i].id == selected[i].id
      {
        FilledKeepsId(selected[k], strategies, account, slugs(k));
        UpdateWhere(selected[k].id, Filled(selected[k], strategies, account, slugs(k)));
        k := k + 1;
      }
      forall i | 0 <= i < |rows| ensures FilledSays(rows[i], selected[i], strategies, account, slugs(i)) {
        FilledExact(selected[i], strategies, account, slugs(i));
      }
    }

    /** Refuses and changes nothing if identities collide; otherwise the table can be indexed afterwards. */
    method Upgrade(slugs: nat -> string) returns (collisions: map<Signature, seq<nat>>)
      requires UniqueIds(rows)
      modifies this`rows
      ensures collisions == map[] <==> SignaturesDistinct(old(rows), strategies, account)
      ensures collisions != map[] ==> rows == old(rows)
      ensures collisions == map[] ==> Indexable(rows) && |rows| == |old(rows)|
      ensures collisions == map[] ==>
                forall i :: 0 <= i < |rows| ==> FilledSays(rows[i], old(rows)[i], strategies, account, slugs(i))
    {
      hide FilledSays;
      hide SignatureOf;
      hide Filled;
      collisions := DetectCollisions(rows, strategies, account);
      if collisions != map[] { return; }
      ghost var before := rows;
      Backfill(slugs);
      DistinctIndexable(before, rows, strategies, account, slugs);
    }
  }

  lemma FilledKeepsId(d: Deployment, strategies: map<string, Strategy>, account: string, slug: string)
    ensures Filled(d, strategies, account, slug).id == d.id
  {
  }

  lemma DistinctIndexable(before: seq<Deployment>, after: seq<Deployment>, strategies: map<string, Strategy>,
                          account: string, slugs: nat -> string)
    requires SignaturesDistinct(before, strategies, account) && |after| == |before|
    requires forall i :: 0 <= i < |after| ==> after[i] == Filled(before[i], strategies, account, slugs(i))
    ensures Indexable(after)
  {
    hide SignatureOf;
    forall i | 0 <= i < |after|
      ensures after[i].identity.Some?
              && after[i].identity.value.signature == SignatureOf(before[i], strategies, account) {}
  }

  // ---- What a signature depends on

  function Effective(config: Option<Config>, defaults: Option<Config>, key: string): Option<string> {
    if key in OrEmpty(config) then Some(OrEmpty(config)[key])
    else if key in OrEmpty(defaults) then Some(OrEmpty(defaults)[key])
    else None
  }

  /** Two configs normalize to the same one exactly if every key has the same effective value. */
  lemma NormalizedExact(a: Option<Config>, b: Option<Config>, defaults: Option<Config>)
    ensures Normalized(a, defaults) == Normalized(b, defaults)
            <==> forall key :: Effective(a, defaults, key) == Effective(b, defaults, key)
  {
    var x, y := Normalized(a, defaults), Normalized(b, defaults);
    NormalizedAt(a, defaults);
    NormalizedAt(b, defaults);
    if forall key :: Effective(a, defaults, key) == Effective(b, defaults, key) {
      forall key ensures key in x <==> key in y { assert Effective(a, defaults, key) == Effective(b, defaults, key); }
      forall key | key in x ensures x[key] == y[key] {
        assert Effective(a, defaults, key) == Effective(b, defaults, key);
      }
    }
  }

  lemma NormalizedAt(a: Option<Config>, defaults: Option<Config>)
    ensures forall key :: Effective(a, defaults, key)
                          == if key in Normalized(a, defaults) then Some(Normalized(a, defaults)[key]) else None
  {
  }

  /** Spelling out a defaulted key does not change the normalized config. */
  lemma DefaultSpelledOut(config: Option<Config>, defaults: Option<Config>, key: string)
    requires key in OrEmpty(defaults) && key !in OrEmpty(config)
    ensures Normalized(Some(OrEmpty(config)[key := OrEmpty(defaults)[key]]), defaults) == Normalized(config, defaults)
  {
    NormalizedExact(Some(OrEmpty(config)[key := OrEmpty(defaults)[key]]), config, defaults);
  }

  /** Names that the joined list can be taken apart into again. */
  ghost predicate Plain(names: seq<string>) {
    forall s :: s in names ==> s != "" && ',' !in s
  }

  lemma {:induction false} JoinInjective(a: seq<string>, b: seq<string>)
    requires Plain(a) && Plain(b) && Join(a) == Join(b)
    ensures a == b
  {
    hide Join;
    hide Rest;
    hide Plain;
    JoinHead(a);
    JoinHead(b);
    if a != [] && b != [] {
      PlainTail(a);
      PlainTail(b);
      SameHeads(a[0], Rest(a), b[0], Rest(b));
      RestTail(a, b);
      JoinInjective(a[1..], b[1..]);
      assert a == [a[0]] + a[1..] && b == [b[0]] + b[1..];
    }
  }

  lemma RestTail(a: seq<string>, b: seq<string>)
    requires a != [] && b != [] && Rest(a) == Rest(b)
    ensures Join(a[1..]) == Join(b[1..])
  {
    assert |a| > 1 ==> Rest(a)[0] == ',' && Rest(a)[1..] == Join(a[1..]);
    assert |b| > 1 ==> Rest(b)[0] == ',' && Rest(b)[1..] == Join(b[1..]);
  }

  lemma PlainTail(names: seq<string>)
    requires Plain(names) && names != []
    ensures Plain(names[1..]) && ',' !in names[0] && (Rest(names) == "" || Rest(names)[0] == ',')
  {
    assert names[0] in names;
    assert forall s :: s in names[1..] ==> s in names;
  }

  /** What follows the first name. */
  function Rest(names: seq<string>): string
    requires names != []
  {
    if |names| == 1 then "" else "," + Join(names[1..])
  }

  lemma JoinHead(names: seq<string>)
    requires Plain(names)
    ensures names == [] <==> Join(names) == ""
    ensures names != [] ==> Join(names) == names[0] + Rest(names)
  {
    if names != [] { assert names[0] in names; }
  }

  lemma SameHeads(a: string, x: string, b: string, y: string)
    requires ',' !in a && ',' !in b && a + x == b + y && (x == "" || x[0] == ',') && (y == "" || y[0] == ',')
    ensures a == b && x == y
  {
    var s := a + x;
    assert forall i :: 0 <= i < |a| ==> s[i] == a[i];
    assert forall i :: 0 <= i < |b| ==> s[i] == b[i];
    assert |a| < |s| ==> s[|a|] == x[0];
    assert |b| < |s| ==> s[|b|] == y[0];
    assert |a| == |b|;
    assert s[..|a|] == a && s[..|b|] == b && s[|a|..] == x && s[|b|..] == y;
  }

  function InstrumentsOf(d: Deployment): seq<string> { if d.instruments.Some? then d.instruments.value else [] }

  /**
   Two deployments have the same identity exactly if they agree on who started them, strategy, code,
   mode and the effective value of every config key, and name the same instruments in any order.
   */
  lemma SameIdentityExact(a: Deployment, b: Deployment, strategies: map<string, Strategy>, account: string)
    requires Plain(InstrumentsOf(a)) && Plain(InstrumentsOf(b)) && a.startedBy != Some("") && b.startedBy != Some("")
    ensures SignatureOf(a, strategies, account) == SignatureOf(b, strategies, account)
            <==> && a.startedBy == b.startedBy && a.strategyId == b.strategyId && a.codeHash == b.codeHash
                 && a.paperTrading == b.paperTrading && multiset(InstrumentsOf(a)) == multiset(InstrumentsOf(b))
                 && forall key ::
                      Effective(a.config, DefaultsOf(a, strategies), key)
                      == Effective(b.config, DefaultsOf(a, strategies), key)
  {
    hide Effective;
    hide Normalized;
    InstrumentsExact(a, b);
    NormalizedExact(a.config, b.config, DefaultsOf(a, strategies));
  }

  lemma InstrumentsExact(a: Deployment, b: Deployment)
    requires Plain(InstrumentsOf(a)) && Plain(InstrumentsOf(b))
    ensures InstrumentsSignature(a.instruments) == InstrumentsSignature(b.instruments)
            <==> multiset(InstrumentsOf(a)) == multiset(InstrumentsOf(b))
  {
    var x, y := InstrumentsOf(a), InstrumentsOf(b);
    StringLeOrder();
    SortPermutes(StringLe, x);
    SortPermutes(StringLe, y);
    PlainSorted(x);
    PlainSorted(y);
    if multiset(x) == multiset(y) { SortCanonical(StringLe, x, y); }
    if Join(Sort(StringLe, x)) == Join(Sort(StringLe, y)) { JoinInjective(Sort(StringLe, x), Sort(StringLe, y)); }
  }

  lemma PlainSorted(names: seq<string>)
    requires Plain(names)
    ensures Plain(Sort(StringLe, names))
  {
    SortPermutes(StringLe, names);
    forall s | s in Sort(StringLe, names) ensures s in names {
      assert s in multiset(Sort(StringLe, names));
      assert s in multiset(names);
    }
  }

  /** For any names whatsoever, reordering the instruments does not change the identity. */
  lemma InstrumentOrderIrrelevant(d: Deployment, names: seq<string>, strategies: map<string, Strategy>, account: string)
    requires multiset(names) == multiset(InstrumentsOf(d))
    ensures SignatureOf(d.(instruments := Some(names)), strategies, account) == SignatureOf(d, strategies, account)
  {
    StringLeOrder();
    SortCanonical(StringLe, names, InstrumentsOf(d));
  }
}
