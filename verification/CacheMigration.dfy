/**
 The data part of backend/alembic/versions/e2f3g4h5i6j7_drop_instrument_cache.py: a loop over the rows
 of the instrument cache that upserts one definition per row, closes the definition's other open
 aliases and adds the row's own alias. The migration runs in one transaction.
 */
module CacheMigration {
  import opened Wrappers

  const IB := "interactive_brokers"

  /** The day number of 2000-01-01, from which migrated aliases are in force. */
  const SENTINEL := 0

  type Uid = nat

  /** A JSON column: SQL null, the JSON literal null, or a value. */
  datatype Hours = SqlNull | JsonNull | Stored(text: string)

  datatype Definition = Definition(
    uid: Uid, rawSymbol: string, provider: string, assetClass: string,
    listingVenue: string, routingVenue: string, hours: Hours, refreshedAt: int)

  /** A window from `start` up to but not including `end`. */
  datatype Alias = Alias(uid: Uid, name: string, provider: string, start: int, end: Option<int>)

  datatype CacheRow = CacheRow(
    canonicalId: string, assetClass: Option<string>, exchange: Option<string>, hours: Option<string>, refreshedAt: int)

  /** Uids from `nextUid` on are unused. */
  datatype Tables = Tables(definitions: seq<Definition>, aliases: seq<Alias>, nextUid: Uid)

  // ---- Parsing one cache row

  const KNOWN_VENUES := [
    "ARCA", "BATS", "CBOE", "CBOT", "CME", "COMEX", "EUREX", "GLOBEX", "ICEFUTUSA", "IDEALPRO",
    "NASDAQ", "NYMEX", "NYSE", "OPRA", "SMART", "TSE", "XARC", "XCME", "XNAS", "XNYS",
    "AMEX", "BATY", "EDGA", "EDGX", "IEX", "BOSTON", "PSX", "CHX", "NSX", "MEMX", "PEARL"]

  const ASSET_CLASSES := map["equity" := "equity", "future" := "futures", "forex" := "fx", "option" := "option"]

  /** `s.rsplit(".", 1)`, if there is a dot. */
  function SplitLast(s: string): Option<(string, string)> {
    if s == [] then None
    else
      var rest := SplitLast(s[1..]);
      if rest.Some? then Some(([s[0]] + rest.value.0, rest.value.1))
      else if s[0] == '.' then Some(([], s[1..]))
      else None
  }

  predicate Blank(c: char) { '\t' <= c <= '\r' || '\U{1C}' <= c <= ' ' }

  function StripLeft(s: string): string { if s != [] && Blank(s[0]) then StripLeft(s[1..]) else s }

  function StripRight(s: string): string { if s != [] && Blank(s[|s| - 1]) then StripRight(s[..|s| - 1]) else s }

  function Lower(s: string): string {
    seq(|s|, i requires 0 <= i < |s| =>
          if 'A' <= s[i] <= 'Z' then (s[i] as int - 'A' as int + 'a' as int) as char else s[i])
  }

  function AssetClassOf(row: CacheRow): Option<string> {
    var legacy := Lower(StripRight(StripLeft(if row.assetClass.Some? then row.assetClass.value else "")));
    if legacy in ASSET_CLASSES then Some(ASSET_CLASSES[legacy]) else None
  }

  datatype Parsed = Parsed(rawSymbol: string, assetClass: string, listingVenue: string, routingVenue: string)

  function Parse(row: CacheRow): Result<Parsed> {
    match SplitLast(row.canonicalId)
    case None => Refused("canonical_id does not parse: no '.' separator")
    case Some((raw, venue)) =>
      if venue !in KNOWN_VENUES then Refused("listing venue is not in the known-venue set")
      else match AssetClassOf(row)
        case None => Refused("asset class has no registry equivalent")
        case Some(assetClass) =>
          Success(Parsed(raw, assetClass, venue,
                         if row.exchange.Some? && row.exchange.value != "" then row.exchange.value else venue))
  }

  lemma {:induction false} SplitSound(s: string)
    ensures SplitLast(s) == None <==> '.' !in s
    ensures SplitLast(s).Some? ==>
              s == SplitLast(s).value.0 + "." + SplitLast(s).value.1 && '.' !in SplitLast(s).value.1
  {
    if s != [] {
      SplitSound(s[1..]);
      assert s == [s[0]] + s[1..];
    }
  }

  lemma {:induction false} SplitComplete(raw: string, venue: string)
    requires '.' !in venue
    ensures SplitLast(raw + "." + venue) == Some((raw, venue))
  {
    var s := raw + "." + venue;
    if raw == [] {
      assert s[1..] == venue;
      SplitSound(venue);
    } else {
      SplitComplete(raw[1..], venue);
      assert s[1..] == raw[1..] + "." + venue && [raw[0]] + raw[1..] == raw;
    }
  }

  /** The split is the one at the last dot, and nothing is lost. */
  lemma SplitLastExact(s: string, raw: string, venue: string)
    ensures SplitLast(s) == Some((raw, venue)) <==> s == raw + "." + venue && '.' !in venue
    ensures SplitLast(s) == None <==> '.' !in s
  {
    SplitSound(s);
    if '.' !in venue { SplitComplete(raw, venue); }
  }

  // ---- What a row says, in terms of its own fields

  ghost predicate White(c: char) { c in " \t\n\r\U{0B}\U{0C}\U{1C}\U{1D}\U{1E}\U{1F}" }

  /** `text` is `word` in letters of any case, with white space around it. */
  ghost predicate Writes(text: string, word: string) {
    exists i: nat, j: nat :: i <= j <= |text| && WritesAt(text, i, j, word)
  }

  ghost predicate WritesAt(text: string, i: nat, j: nat, word: string)
    requires i <= j <= |text|
  {
    && j - i == |word|
    && (forall k :: 0 <= k < i || j <= k < |text| ==> White(text[k]))
    && forall k :: 0 <= k < j - i ==>
         text[i + k] == word[k]
         || ('A' <= text[i + k] <= 'Z' && text[i + k] as int - 'A' as int == word[k] as int - 'a' as int)
  }

  lemma BlankExact(c: char)
    ensures Blank(c) <==> White(c)
  {
    var blanks := " \t\n\r\U{0B}\U{0C}\U{1C}\U{1D}\U{1E}\U{1F}";
    if Blank(c) {
      var i := if c == ' ' then 0 else if c == '\t' then 1 else if c == '\n' then 2 else if c == '\r' then 3
               else if c <= '\r' then 4 + c as int - 11 else 6 + c as int - 28;
      assert blanks[i] == c;
    }
  }

  lemma {:induction false} StrippedLeft(s: string) returns (i: nat)
    ensures i <= |s| && StripLeft(s) == s[i..] && (i < |s| ==> !Blank(s[i]))
    ensures forall k :: 0 <= k < i ==> Blank(s[k])
  {
    if s != [] && Blank(s[0]) {
      var k := StrippedLeft(s[1..]);
      i := k + 1;
      assert forall m :: 0 < m < i ==> s[m] == s[1..][m - 1];
    } else {
      i := 0;
    }
  }

  lemma {:induction false} StrippedRight(s: string) returns (j: nat)
    ensures j <= |s| && StripRight(s) == s[..j] && (j > 0 ==> !Blank(s[j - 1]))
    ensures forall k :: j <= k < |s| ==> Blank(s[k])
  {
    if s != [] && Blank(s[|s| - 1]) {
      j := StrippedRight(s[..|s| - 1]);
      assert s[..|s| - 1][..j] == s[..j];
      assert forall m :: j <= m < |s| - 1 ==> s[m] == s[..|s| - 1][m];
    } else {
      j := |s|;
    }
  }

  /** The normalized text is a given lower-case word exactly if the text writes it. */
  lemma NormalizedExact(text: string, word: string)
    requires word != "" && forall k :: 0 <= k < |word| ==> 'a' <= word[k] <= 'z'
    ensures Lower(StripRight(StripLeft(text))) == word <==> Writes(text, word)
  {
    hide StripLeft;
    hide StripRight;
    hide White;
    hide Blank;
    hide Lower;
    hide WritesAt;
    forall c { BlankExact(c); }
    var i := StrippedLeft(text);
    var m := StrippedRight(text[i..]);
    var j := i + m;
    assert text[i..][..m] == text[i..j];
    assert forall k :: i <= k < |text| ==> text[k] == text[i..][k - i];
    if Lower(text[i..j]) == word { LoweredWrites(text, i, j, word); }
    if Writes(text, word) {
      var a: nat, b: nat :| a <= b <= |text| && WritesAt(text, a, b, word);
      WritesLowered(text, a, b, word);
      assert a == i && b == j;
    }
  }

  lemma LoweredWrites(text: string, i: nat, j: nat, word: string)
    requires i <= j <= |text| && Lower(text[i..j]) == word
    requires forall k :: 0 <= k < |word| ==> 'a' <= word[k] <= 'z'
    requires forall k :: 0 <= k < i || j <= k < |text| ==> White(text[k])
    ensures WritesAt(text, i, j, word)
  {
    hide White;
    forall k | 0 <= k < j - i
      ensures text[i + k] == word[k]
              || ('A' <= text[i + k] <= 'Z' && text[i + k] as int - 'A' as int == word[k] as int - 'a' as int)
    {
      assert Lower(text[i..j])[k] == word[k] && text[i..j][k] == text[i + k];
    }
  }

  lemma WritesLowered(text: string, i: nat, j: nat, word: string)
    requires i <= j <= |text| && WritesAt(text, i, j, word)
    requires word != "" && forall k :: 0 <= k < |word| ==> 'a' <= word[k] <= 'z'
    ensures i < j && !Blank(text[i]) && !Blank(text[j - 1]) && Lower(text[i..j]) == word
    ensures forall k :: 0 <= k < i || j <= k < |text| ==> White(text[k])
  {
    hide White;
    forall k | 0 <= k < j - i ensures Lower(text[i..j])[k] == word[k] && !Blank(text[i + k]) {
      assert text[i..j][k] == text[i + k];
    }
    assert Lower(text[i..j])[0] == word[0] && Lower(text[i..j])[j - i - 1] == word[j - i - 1];
  }

  /** The four asset classes of the cache and what the registry calls them. */
  ghost predicate ClassSays(row: CacheRow, assetClass: string) {
    row.assetClass.Some?
    && var text := row.assetClass.value;
       || (Writes(text, "equity") && assetClass == "equity") || (Writes(text, "future") && assetClass == "futures")
       || (Writes(text, "forex") && assetClass == "fx") || (Writes(text, "option") && assetClass == "option")
  }

  lemma ClassExact(row: CacheRow, assetClass: string)
    ensures AssetClassOf(row) == Some(assetClass) <==> ClassSays(row, assetClass)
  {
    var text := if row.assetClass.Some? then row.assetClass.value else "";
    NormalizedExact(text, "equity");
    NormalizedExact(text, "future");
    NormalizedExact(text, "forex");
    NormalizedExact(text, "option");
    assert StripLeft("") == "" && StripRight("") == "" && Lower("") == "";
    hide StripLeft;
    hide StripRight;
    hide Lower;
    hide Writes;
  }

  /** What a cache row says: its id is symbol, dot and a known venue without a dot. */
  ghost predicate RowSays(row: CacheRow, p: Parsed) {
    && row.canonicalId == p.rawSymbol + "." + p.listingVenue && '.' !in p.listingVenue
    && p.listingVenue in [
         "ARCA", "BATS", "CBOE", "CBOT", "CME", "COMEX", "EUREX", "GLOBEX", "ICEFUTUSA", "IDEALPRO",
         "NASDAQ", "NYMEX", "NYSE", "OPRA", "SMART", "TSE", "XARC", "XCME", "XNAS", "XNYS",
         "AMEX", "BATY", "EDGA", "EDGX", "IEX", "BOSTON", "PSX", "CHX", "NSX", "MEMX", "PEARL"]
    && p.routingVenue == (match row.exchange
                          case None => p.listingVenue
                          case Some(exchange) => if |exchange| > 0 then exchange else p.listingVenue)
    && ClassSays(row, p.assetClass)
  }

  lemma ParseExact(row: CacheRow, p: Parsed)
    ensures Parse(row) == Success(p) <==> RowSays(row, p)
  {
    hide SplitLast;
    hide AssetClassOf;
    hide ClassSays;
    SplitLastExact(row.canonicalId, p.rawSymbol, p.listingVenue);
    if Parse(row).Success? {
      var (raw, venue) := SplitLast(row.canonicalId).value;
      SplitLastExact(row.canonicalId, raw, venue);
    }
    ClassExact(row, p.assetClass);
    assert KNOWN_VENUES == [
      "ARCA", "BATS", "CBOE", "CBOT", "CME", "COMEX", "EUREX", "GLOBEX", "ICEFUTUSA", "IDEALPRO",
      "NASDAQ", "NYMEX", "NYSE", "OPRA", "SMART", "TSE", "XARC", "XCME", "XNAS", "XNYS",
      "AMEX", "BATY", "EDGA", "EDGX", "IEX", "BOSTON", "PSX", "CHX", "NSX", "MEMX", "PEARL"];
  }

  // ---- One row

  /** The position of the definition that `(raw_symbol, provider, asset_class)` identifies. */
  function FindDefinition(definitions: seq<Definition>, raw: string, assetClass: string): Option<nat> {
    if definitions == [] then None
    else
      var last := |definitions| - 1;
      if IsDefinition(definitions[last], raw, assetClass) then Some(last)
      else FindDefinition(definitions[..last], raw, assetClass)
  }

  predicate IsDefinition(d: Definition, raw: string, assetClass: string) {
    d.rawSymbol == raw && d.provider == IB && d.assetClass == assetClass
  }

  /** How an absent value is bound on insert. */
  function Bound(hours: Option<string>): Hours { if hours.Some? then Stored(hours.value) else JsonNull }

  /** `COALESCE(NULLIF(excluded, 'null'), existing)` */
  function Merged(excluded: Hours, existing: Hours): Hours {
    if excluded == JsonNull || excluded == SqlNull then existing else excluded
  }

  /** INSERT ... ON CONFLICT DO UPDATE, with the uid of the row inserted or updated. */
  function UpsertDefinition(definitions: seq<Definition>, nextUid: Uid, p: Parsed, row: CacheRow)
    : (seq<Definition>, Uid)
  {
    match FindDefinition(definitions, p.rawSymbol, p.assetClass)
    case Some(i) =>
      FoundDefinition(definitions, p.rawSymbol, p.assetClass);
      var d := definitions[i];
      (definitions[i := d.(hours := Merged(Bound(row.hours), d.hours), refreshedAt := row.refreshedAt)], d.uid)
    case None =>
      (definitions + [Definition(nextUid, p.rawSymbol, IB, p.assetClass, p.listingVenue, p.routingVenue,
                                 Bound(row.hours), row.refreshedAt)],
       nextUid)
  }

  predicate Open(a: Alias, uid: Uid) { a.uid == uid && a.provider == IB && a.end.None? }

  /** Closes the definition's other open aliases today. */
  function CloseOthers(aliases: seq<Alias>, uid: Uid, name: string, today: int): seq<Alias> {
    seq(|aliases|, i requires 0 <= i < |aliases| =>
      if Open(aliases[i], uid) && aliases[i].name != name then aliases[i].(end := Some(today)) else aliases[i])
  }

  /** `ck_instrument_aliases_effective_window` */
  predicate WindowsOrdered(aliases: seq<Alias>) {
    forall i :: 0 <= i < |aliases| ==> aliases[i].end.None? || aliases[i].end.value >= aliases[i].start
  }

  /** A row with the unique key that the migrated alias of `name` gets. */
  predicate KeyTaken(aliases: seq<Alias>, name: string) {
    exists i :: 0 <= i < |aliases| && aliases[i].name == name && aliases[i].provider == IB
                && aliases[i].start == SENTINEL
  }

  /** INSERT ... ON CONFLICT DO NOTHING */
  function InsertAlias(aliases: seq<Alias>, uid: Uid, name: string): seq<Alias> {
    if KeyTaken(aliases, name) then aliases else aliases + [Alias(uid, name, IB, SENTINEL, None)]
  }

  /** One pass of the loop. A violated check aborts it. */
  function MigrateRow(t: Tables, row: CacheRow, today: int): Result<Tables> {
    var parsed := Parse(row);
    if parsed.Refused? then Refused(parsed.reason)
    else
      var (definitions, uid) := UpsertDefinition(t.definitions, t.nextUid, parsed.value, row);
      var closed := CloseOthers(t.aliases, uid, row.canonicalId, today);
      if !WindowsOrdered(closed) then Refused("ck_instrument_aliases_effective_window")
      else Success(Tables(definitions, InsertAlias(closed, uid, row.canonicalId), t.nextUid + 1))
  }

  /** The whole loop. */
  function Migrate(t: Tables, rows: seq<CacheRow>, today: int): Result<Tables> {
    if rows == [] then Success(t)
    else
      var before := Migrate(t, rows[..|rows| - 1], today);
      if before.Refused? then before else MigrateRow(before.value, rows[|rows| - 1], today)
  }

  // ---- What migrating one row writes

  /** The definition that a parsed row maps to is at position `i`. */
  ghost predicate At(definitions: seq<Definition>, i: nat, p: Parsed) {
    && i < |definitions| && definitions[i].rawSymbol == p.rawSymbol
    && definitions[i].provider == "interactive_brokers" && definitions[i].assetClass == p.assetClass
  }

  /**
   An existing definition takes the row's refresh time, and its hours if it has some; else a new one gets all
   columns from the row.
   */
  ghost predicate DefinitionWritten(t: Tables, t': Tables, row: CacheRow, p: Parsed, uid: Uid) {
    || (exists i: nat :: At(t.definitions, i, p) && uid == t.definitions[i].uid
          && t'.definitions == t.definitions[i := t.definitions[i].(
                                              refreshedAt := row.refreshedAt,
                                              hours := match row.hours
                                                       case Some(text) => Stored(text)
                                                       case None => t.definitions[i].hours)])
    || ((forall i: nat :: !At(t.definitions, i, p)) && uid == t.nextUid
        && t'.definitions == t.definitions + [
          Definition(t.nextUid, p.rawSymbol, "interactive_brokers", p.assetClass, p.listingVenue, p.routingVenue,
                     match row.hours case Some(text) => Stored(text) case None => JsonNull, row.refreshedAt)])
  }

  /** Another open alias of the definition. */
  ghost predicate Superseded(a: Alias, uid: Uid, name: string) {
    a.uid == uid && a.provider == "interactive_brokers" && a.end == None && a.name != name
  }

  /** Other open aliases of the definition end today, and the row's alias is added unless its key is there. */
  ghost predicate AliasesWritten(before: seq<Alias>, after: seq<Alias>, name: string, uid: Uid, today: int) {
    && |before| <= |after|
    && (forall i :: 0 <= i < |before| ==>
          after[i] == if Superseded(before[i], uid, name) then before[i].(end := Some(today)) else before[i])
    && after[|before|..]
       == if exists a :: a in before && a.name == name && a.provider == "interactive_brokers" && a.start == 0
          then [] else [Alias(uid, name, "interactive_brokers", 0, None)]
  }

  ghost predicate RowWritten(t: Tables, t': Tables, row: CacheRow, today: int) {
    exists p, uid ::
      && RowSays(row, p) && DefinitionWritten(t, t', row, p, uid)
      && AliasesWritten(t.aliases, t'.aliases, row.canonicalId, uid, today) && t'.nextUid == t.nextUid + 1
  }

  lemma UpsertWrites(t: Tables, row: CacheRow, p: Parsed, aliases: seq<Alias>)
    ensures var (definitions, uid) := UpsertDefinition(t.definitions, t.nextUid, p, row);
            DefinitionWritten(t, Tables(definitions, aliases, t.nextUid + 1), row, p, uid)
  {
    FoundDefinition(t.definitions, p.rawSymbol, p.assetClass);
    var i := FindDefinition(t.definitions, p.rawSymbol, p.assetClass);
    if i.Some? {
      assert At(t.definitions, i.value, p);
    } else {
      forall k: nat | k < |t.definitions| ensures !At(t.definitions, k, p) {
        assert !IsDefinition(t.definitions[k], p.rawSymbol, p.assetClass);
      }
    }
  }

  lemma AliasesAre(aliases: seq<Alias>, name: string, uid: Uid, today: int)
    ensures AliasesWritten(aliases, InsertAlias(CloseOthers(aliases, uid, name, today), uid, name), name, uid, today)
  {
    KeyTakenKept(aliases, uid, name, name, today);
    if a :| a in aliases && a.name == name && a.provider == "interactive_brokers" && a.start == 0 {
      assert KeyTaken(aliases, name);
    }
  }

  /** Every column that a migrated row leaves in the tables. */
  lemma RowExact(t: Tables, row: CacheRow, today: int)
    ensures MigrateRow(t, row, today).Success? ==> RowWritten(t, MigrateRow(t, row, today).value, row, today)
  {
    hide Parse;
    hide RowSays;
    hide UpsertDefinition;
    hide DefinitionWritten;
    hide AliasesWritten;
    hide CloseOthers;
    hide InsertAlias;
    hide WindowsOrdered;
    if MigrateRow(t, row, today).Success? {
      var p, t' := Parse(row).value, MigrateRow(t, row, today).value;
      ParseExact(row, p);
      UpsertWrites(t, row, p, t'.aliases);
      AliasesAre(t.aliases, row.canonicalId, UpsertDefinition(t.definitions, t.nextUid, p, row).1, today);
    }
  }

  /** The tables after each row, from `t` on. */
  ghost predicate Stepwise(steps: seq<Tables>, t: Tables, rows: seq<CacheRow>, today: int) {
    && |steps| == |rows| + 1 && steps[0] == t
    && forall i :: 0 <= i < |rows| ==> RowWritten(steps[i], steps[i + 1], rows[i], today)
  }

  lemma {:induction false} MigrateSteps(t: Tables, rows: seq<CacheRow>, today: int) returns (steps: seq<Tables>)
    requires Migrate(t, rows, today).Success?
    ensures Stepwise(steps, t, rows, today) && steps[|rows|] == Migrate(t, rows, today).value
  {
    hide MigrateRow;
    hide RowWritten;
    if rows == [] {
      steps := [t];
    } else {
      var init := rows[..|rows| - 1];
      var before := MigrateSteps(t, init, today);
      RowExact(before[|init|], rows[|init|], today);
      steps := before + [Migrate(t, rows, today).value];
      forall i | 0 <= i < |init| ensures RowWritten(steps[i], steps[i + 1], rows[i], today) {
        assert RowWritten(before[i], before[i + 1], init[i], today);
      }
    }
  }

  /** The migrated tables come about row by row. */
  ghost predicate Migrated(t: Tables, t': Tables, rows: seq<CacheRow>, today: int) {
    exists steps :: Stepwise(steps, t, rows, today) && steps[|steps| - 1] == t'
  }

  lemma MigrateExact(t: Tables, rows: seq<CacheRow>, today: int)
    ensures Migrate(t, rows, today).Success? ==> Migrated(t, Migrate(t, rows, today).value, rows, today)
  {
    hide Migrate;
    hide RowWritten;
    if Migrate(t, rows, today).Success? {
      var steps := MigrateSteps(t, rows, today);
      assert steps[|steps| - 1] == Migrate(t, rows, today).value;
    }
  }

  class Registry {
    var definitions: seq<Definition>
    var aliases: seq<Alias>
    var nextUid: Uid
    var cache: Option<seq<CacheRow>>

    constructor (t: Tables, rows: seq<CacheRow>)
      ensures Contents() == t && cache == Some(rows)
    {
      definitions, aliases, nextUid, cache := t.definitions, t.aliases, t.nextUid, Some(rows);
    }

    ghost function Contents(): Tables
      reads this
    {
      Tables(definitions, aliases, nextUid)
    }

    /** Migrates every cache row and drops the cache, or leaves everything as it was. */
    method Upgrade(today: int) returns (r: Result<nat>)
      requires cache.Some?
      modifies this
      ensures var migrated := Migrate(old(Contents()), old(cache.value), today);
              match r
              case Success(n) => migrated == Success(Contents()) && cache == None && n == |old(cache.value)|
              case Refused(reason) =>
                migrated == Refused(reason) && Contents() == old(Contents()) && cache == old(cache)
      ensures r.Success? ==> Migrated(old(Contents()), Contents(), old(cache.value), today)
    {
      hide Migrated;
      hide RowWritten;
      hide MigrateRow;
      var rows, savedDefinitions, savedAliases, savedUid := cache.value, definitions, aliases, nextUid;
      var i := 0;
      while i < |rows|
        invariant 0 <= i <= |rows| && cache == old(cache)
        invariant Migrate(old(Contents()), rows[..i], today) == Success(Contents())
      {
        assert rows[..i + 1][..i] == rows[..i];
        ghost var before := Contents();
        var refusal := Copy(rows[i], today);
        assert Migrate(old(Contents()), rows[..i + 1], today) == MigrateRow(before, rows[i], today);
        if refusal.Some? {
          MigrateStops(old(Contents()), rows, i + 1, today);
          definitions, aliases, nextUid := savedDefinitions, savedAliases, savedUid;
          return Refused(refusal.value);
        }
        i := i + 1;
      }
      assert rows[..|rows|] == rows;
      cache := None;
      MigrateExact(old(Contents()), rows, today);
      r := Success(|rows|);
    }

    /** The statements for one row; a refusal leaves the transaction to be rolled back. */
    method Copy(row: CacheRow, today: int) returns (refusal: Option<string>)
      modifies this`definitions, this`aliases, this`nextUid
      ensures match MigrateRow(old(Contents()), row, today)
              case Success(t) => refusal == None && Contents() == t
              case Refused(reason) => refusal == Some(reason)
      ensures refusal == None ==> RowWritten(old(Contents()), Contents(), row, today)
    {
      RowExact(Contents(), row, today);
      hide RowWritten;
      hide Parse;
      hide UpsertDefinition;
      var parsed := Parse(row);
      if parsed.Refused? { return Some(parsed.reason); }
      var upserted := UpsertDefinition(definitions, nextUid, parsed.value, row);
      definitions, nextUid := upserted.0, nextUid + 1;
      aliases := CloseOthers(aliases, upserted.1, row.canonicalId, today);
      if !WindowsOrdered(aliases) { return Some("ck_instrument_aliases_effective_window"); }
      aliases := InsertAlias(aliases, upserted.1, row.canonicalId);
      refusal := None;
    }
  }

  lemma {:induction false} MigrateStops(t: Tables, rows: seq<CacheRow>, i: nat, today: int)
    requires i <= |rows| && Migrate(t, rows[..i], today).Refused?
    ensures Migrate(t, rows, today) == Migrate(t, rows[..i], today)
    decreases |rows|
  {
    if i < |rows| {
      assert rows[..|rows| - 1][..i] == rows[..i];
      MigrateStops(t, rows[..|rows| - 1], i, today);
    } else {
      assert rows[..i] == rows;
    }
  }

  lemma {:induction false} FoundDefinition(definitions: seq<Definition>, raw: string, assetClass: string)
    ensures var i := FindDefinition(definitions, raw, assetClass);
            if i.Some? then i.value < |definitions| && IsDefinition(definitions[i.value], raw, assetClass)
            else forall j :: 0 <= j < |definitions| ==> !IsDefinition(definitions[j], raw, assetClass)
  {
    if definitions != [] {
      var init := definitions[..|definitions| - 1];
      FoundDefinition(init, raw, assetClass);
      forall j | 0 <= j < |init| ensures definitions[j] == init[j] {}
    }
  }

  // ---- What the tables keep

  ghost predicate DefinitionsOk(definitions: seq<Definition>, nextUid: Uid) {
    && (forall i :: 0 <= i < |definitions| ==> definitions[i].uid < nextUid)
    && (forall i, j :: 0 <= i < j < |definitions| ==> definitions[i].uid != definitions[j].uid)
    && forall i, j :: 0 <= i < j < |definitions| ==>
         !(definitions[i].rawSymbol == definitions[j].rawSymbol && definitions[i].provider == definitions[j].provider
           && definitions[i].assetClass == definitions[j].assetClass)
  }

  /** `uq_instrument_aliases_string_provider_from` */
  ghost predicate UniqueKey(aliases: seq<Alias>) {
    forall i, j :: 0 <= i < j < |aliases| ==>
      !(aliases[i].name == aliases[j].name && aliases[i].provider == aliases[j].provider
        && aliases[i].start == aliases[j].start)
  }

  ghost predicate Consistent(t: Tables) {
    && DefinitionsOk(t.definitions, t.nextUid) && UniqueKey(t.aliases) && WindowsOrdered(t.aliases)
    && forall i :: 0 <= i < |t.aliases| ==> t.aliases[i].uid < t.nextUid
  }

  ghost predicate IsActive(a: Alias, day: int) { a.start <= day && (a.end.None? || day < a.end.value) }

  /** Rows are only added or changed: a stored value of `hours` stays one, and no day before today is lost. */
  ghost predicate Preserves(t: Tables, t': Tables, today: int) {
    && |t.definitions| <= |t'.definitions| && |t.aliases| <= |t'.aliases| && t.nextUid <= t'.nextUid
    && (forall i :: 0 <= i < |t.definitions| ==> DefinitionKept(t.definitions[i], t'.definitions[i]))
    && forall i :: 0 <= i < |t.aliases| ==> AliasKept(t.aliases[i], t'.aliases[i], today)
  }

  ghost predicate DefinitionKept(d: Definition, d': Definition) {
    d' == d.(hours := d'.hours, refreshedAt := d'.refreshedAt) && (d'.hours == d.hours || d'.hours.Stored?)
  }

  ghost predicate AliasKept(a: Alias, a': Alias, today: int) {
    && a' == a.(end := a'.end) && (a' == a || (a.end.None? && a'.end == Some(today)))
    && forall day :: day < today && IsActive(a, day) ==> IsActive(a', day)
  }

  lemma UpsertKeeps(definitions: seq<Definition>, nextUid: Uid, p: Parsed, row: CacheRow)
    requires DefinitionsOk(definitions, nextUid)
    ensures var (after, uid) := UpsertDefinition(definitions, nextUid, p, row);
            && DefinitionsOk(after, nextUid + 1) && uid <= nextUid && |definitions| <= |after|
            && (forall i :: 0 <= i < |definitions| ==> DefinitionKept(definitions[i], after[i]))
  {
    FoundDefinition(definitions, p.rawSymbol, p.assetClass);
  }

  lemma CloseKeeps(aliases: seq<Alias>, uid: Uid, name: string, today: int)
    ensures forall i :: 0 <= i < |aliases| ==> AliasKept(aliases[i], CloseOthers(aliases, uid, name, today)[i], today)
    ensures UniqueKey(aliases) ==> UniqueKey(CloseOthers(aliases, uid, name, today))
  {
  }

  lemma InsertKeeps(aliases: seq<Alias>, uid: Uid, name: string)
    requires UniqueKey(aliases) && WindowsOrdered(aliases)
    ensures UniqueKey(InsertAlias(aliases, uid, name)) && WindowsOrdered(InsertAlias(aliases, uid, name))
    ensures aliases <= InsertAlias(aliases, uid, name) && |InsertAlias(aliases, uid, name)| <= |aliases| + 1
  {
  }

  lemma RowPreserves(t: Tables, row: CacheRow, today: int)
    requires Consistent(t) && MigrateRow(t, row, today).Success?
    ensures var t' := MigrateRow(t, row, today).value; Consistent(t') && Preserves(t, t', today)
  {
    hide DefinitionsOk;
    hide UniqueKey;
    hide WindowsOrdered;
    hide Parse;
    hide UpsertDefinition;
    hide DefinitionKept;
    hide AliasKept;
    hide KeyTaken;
    hide Open;
    var p := Parse(row).value;
    UpsertKeeps(t.definitions, t.nextUid, p, row);
    var uid := UpsertDefinition(t.definitions, t.nextUid, p, row).1;
    CloseKeeps(t.aliases, uid, row.canonicalId, today);
    InsertKeeps(CloseOthers(t.aliases, uid, row.canonicalId, today), uid, row.canonicalId);
  }

  lemma PreservesTransitive(a: Tables, b: Tables, c: Tables, today: int)
    requires Preserves(a, b, today) && Preserves(b, c, today)
    ensures Preserves(a, c, today)
  {
    forall i | 0 <= i < |a.aliases| ensures AliasKept(a.aliases[i], c.aliases[i], today) {
      assert AliasKept(a.aliases[i], b.aliases[i], today) && AliasKept(b.aliases[i], c.aliases[i], today);
    }
    forall i | 0 <= i < |a.definitions| ensures DefinitionKept(a.definitions[i], c.definitions[i]) {
      assert DefinitionKept(a.definitions[i], b.definitions[i]) && DefinitionKept(b.definitions[i], c.definitions[i]);
    }
  }

  /**
   The migration keeps both unique keys and the window order, loses no alias day before today, and never
   replaces stored trading hours by a null.
   */
  lemma {:induction false} MigrationPreserves(t: Tables, rows: seq<CacheRow>, today: int)
    requires Consistent(t) && Migrate(t, rows, today).Success?
    ensures var t' := Migrate(t, rows, today).value; Consistent(t') && Preserves(t, t', today)
  {
    hide Consistent;
    hide Preserves;
    hide MigrateRow;
    if rows == [] {
      PreservesSame(t, today);
    } else {
      var before := Migrate(t, rows[..|rows| - 1], today).value;
      MigrationPreserves(t, rows[..|rows| - 1], today);
      RowPreserves(before, rows[|rows| - 1], today);
      PreservesTransitive(t, before, Migrate(t, rows, today).value, today);
    }
  }

  lemma PreservesSame(t: Tables, today: int)
    ensures Preserves(t, t, today)
  {
  }

  // ---- When it succeeds

  /** No window starts after today. */
  ghost predicate NoneFuture(t: Tables, today: int) {
    SENTINEL <= today && forall i :: 0 <= i < |t.aliases| ==> t.aliases[i].start <= today
  }

  lemma RowSucceeds(t: Tables, row: CacheRow, today: int)
    requires Consistent(t) && NoneFuture(t, today)
    ensures MigrateRow(t, row, today).Success? <==> Parseable(row)
    ensures MigrateRow(t, row, today).Success? ==> NoneFuture(MigrateRow(t, row, today).value, today)
  {
    hide Parse;
    hide UpsertDefinition;
    hide KeyTaken;
    hide DefinitionsOk;
    hide UniqueKey;
    ParseableExact(row);
    hide Parseable;
  }

  ghost predicate Parseable(row: CacheRow) { exists p :: RowSays(row, p) }

  lemma ParseableExact(row: CacheRow)
    ensures Parse(row).Success? <==> Parseable(row)
  {
    hide Parse;
    hide RowSays;
    if Parse(row).Success? { ParseExact(row, Parse(row).value); }
    if p :| RowSays(row, p) { ParseExact(row, p); }
  }

  /** Without future-dated windows the migration succeeds exactly if every cache row parses. */
  lemma {:induction false} SucceedsExactly(t: Tables, rows: seq<CacheRow>, today: int)
    requires Consistent(t) && NoneFuture(t, today)
    ensures Migrate(t, rows, today).Success? <==> forall k :: 0 <= k < |rows| ==> Parseable(rows[k])
    ensures Migrate(t, rows, today).Success? ==> NoneFuture(Migrate(t, rows, today).value, today)
  {
    hide Parseable;
    hide MigrateRow;
    hide Consistent;
    hide NoneFuture;
    if rows != [] {
      var init := rows[..|rows| - 1];
      SucceedsExactly(t, init, today);
      forall k | 0 <= k < |init| ensures init[k] == rows[k] {}
      if Migrate(t, init, today).Success? {
        MigrationPreserves(t, init, today);
        RowSucceeds(Migrate(t, init, today).value, rows[|rows| - 1], today);
      } else {
        var k :| 0 <= k < |init| && !Parseable(init[k]);
        assert !Parseable(rows[k]);
      }
    }
  }

  /** A row that parses is refused exactly if an alias that it has to close today starts later than today. */
  lemma RowRefused(t: Tables, row: CacheRow, p: Parsed, today: int)
    requires Consistent(t) && RowSays(row, p)
    ensures MigrateRow(t, row, today).Refused? <==>
            exists a, i: nat ::
              a in t.aliases && At(t.definitions, i, p) && Superseded(a, t.definitions[i].uid, row.canonicalId)
              && a.start > today
  {
    hide Parse;
    hide RowSays;
    hide UniqueKey;
    ParseExact(row, p);
    FoundDefinition(t.definitions, p.rawSymbol, p.assetClass);
    var uid := UpsertDefinition(t.definitions, t.nextUid, p, row).1;
    var closed := CloseOthers(t.aliases, uid, row.canonicalId, today);
    OrderedExact(closed);
    OrderedExact(t.aliases);
    hide WindowsOrdered;
    if a, i: nat :| a in t.aliases && a.start > today && At(t.definitions, i, p)
                    && Superseded(a, t.definitions[i].uid, row.canonicalId)
    {
      assert IsDefinition(t.definitions[i], p.rawSymbol, p.assetClass);
      var k :| 0 <= k < |t.aliases| && t.aliases[k] == a;
      assert closed[k].end == Some(today);
    }
    if MigrateRow(t, row, today).Refused? {
      var k :| 0 <= k < |closed| && closed[k].end.Some? && closed[k].end.value < closed[k].start;
      assert closed[k] != t.aliases[k];
      var found := FindDefinition(t.definitions, p.rawSymbol, p.assetClass);
      assert At(t.definitions, found.value, p) && Superseded(t.aliases[k], uid, row.canonicalId);
    }
  }

  lemma OrderedExact(aliases: seq<Alias>)
    ensures WindowsOrdered(aliases)
            <==> forall i :: 0 <= i < |aliases| && aliases[i].end.Some? ==> aliases[i].start <= aliases[i].end.value
  {
  }

  // ---- Which open aliases a definition ends with

  /** The definition that a cache row maps to, by raw symbol and asset class. */
  function Target(row: CacheRow): Option<(string, string)> {
    if Parse(row).Success? then Some((Parse(row).value.rawSymbol, Parse(row).value.assetClass)) else None
  }

  function UidOf(t: Tables, key: (string, string)): Option<Uid> {
    FoundDefinition(t.definitions, key.0, key.1);
    var i := FindDefinition(t.definitions, key.0, key.1);
    if i.Some? then Some(t.definitions[i.value].uid) else None
  }

  lemma TargetExact(row: CacheRow, raw: string, assetClass: string)
    ensures Target(row) == Some((raw, assetClass))
            <==> exists p :: RowSays(row, p) && p.rawSymbol == raw && p.assetClass == assetClass
  {
    hide Parse;
    hide RowSays;
    if Parse(row).Success? { ParseExact(row, Parse(row).value); }
    if p :| RowSays(row, p) && p.rawSymbol == raw && p.assetClass == assetClass { ParseExact(row, p); }
  }

  /** The definition with this symbol and asset class of the provider. */
  ghost predicate Identifies(t: Tables, raw: string, assetClass: string, uid: Uid) {
    exists i :: 0 <= i < |t.definitions|
                && t.definitions[i].uid == uid && t.definitions[i].rawSymbol == raw
                && t.definitions[i].provider == "interactive_brokers" && t.definitions[i].assetClass == assetClass
  }

  lemma UidExact(t: Tables, raw: string, assetClass: string, uid: Uid)
    requires DefinitionsOk(t.definitions, t.nextUid)
    ensures UidOf(t, (raw, assetClass)) == Some(uid) <==> Identifies(t, raw, assetClass, uid)
  {
    FoundDefinition(t.definitions, raw, assetClass);
    if Identifies(t, raw, assetClass, uid) {
      var i :| 0 <= i < |t.definitions|
        && t.definitions[i].uid == uid && t.definitions[i].rawSymbol == raw
        && t.definitions[i].provider == "interactive_brokers" && t.definitions[i].assetClass == assetClass;
      FindIs(t.definitions, t.nextUid, raw, assetClass, i);
    }
  }

  /** Every open alias of the definition is `name`. */
  ghost predicate OpenOnly(aliases: seq<Alias>, uid: Uid, name: string) {
    forall i :: 0 <= i < |aliases| && Open(aliases[i], uid) ==> aliases[i].name == name
  }

  ghost predicate HasOpen(aliases: seq<Alias>, uid: Uid, name: string) {
    exists i :: 0 <= i < |aliases| && Open(aliases[i], uid) && aliases[i].name == name
  }

  lemma FindIs(definitions: seq<Definition>, nextUid: Uid, raw: string, assetClass: string, i: nat)
    requires DefinitionsOk(definitions, nextUid) && i < |definitions| && IsDefinition(definitions[i], raw, assetClass)
    ensures FindDefinition(definitions, raw, assetClass) == Some(i)
  {
    FoundDefinition(definitions, raw, assetClass);
  }

  /** The definition of the upserted row: updated in place, or new with an unused uid. */
  lemma UpsertOwnUid(t: Tables, p: Parsed, row: CacheRow)
    requires DefinitionsOk(t.definitions, t.nextUid)
    ensures var (after, uid) := UpsertDefinition(t.definitions, t.nextUid, p, row);
            && UidOf(Tables(after, t.aliases, t.nextUid + 1), (p.rawSymbol, p.assetClass)) == Some(uid)
            && UidOf(t, (p.rawSymbol, p.assetClass)) == (if uid == t.nextUid then None else Some(uid))
  {
    var after := UpsertDefinition(t.definitions, t.nextUid, p, row).0;
    UpsertKeeps(t.definitions, t.nextUid, p, row);
    FoundDefinition(t.definitions, p.rawSymbol, p.assetClass);
    var mine := FindDefinition(t.definitions, p.rawSymbol, p.assetClass);
    FindIs(after, t.nextUid + 1, p.rawSymbol, p.assetClass, if mine.Some? then mine.value else |t.definitions|);
  }

  /** Every other definition keeps its uid. */
  lemma UpsertOtherUid(t: Tables, p: Parsed, row: CacheRow, key: (string, string))
    requires DefinitionsOk(t.definitions, t.nextUid) && key != (p.rawSymbol, p.assetClass)
    ensures var (after, uid) := UpsertDefinition(t.definitions, t.nextUid, p, row);
            UidOf(Tables(after, t.aliases, t.nextUid + 1), key) == UidOf(t, key) && UidOf(t, key) != Some(uid)
  {
    var after := UpsertDefinition(t.definitions, t.nextUid, p, row).0;
    UpsertKeeps(t.definitions, t.nextUid, p, row);
    FoundDefinition(t.definitions, p.rawSymbol, p.assetClass);
    FoundDefinition(t.definitions, key.0, key.1);
    FoundDefinition(after, key.0, key.1);
    var other := FindDefinition(t.definitions, key.0, key.1);
    if other.Some? {
      assert DefinitionKept(t.definitions[other.value], after[other.value]);
      FindIs(after, t.nextUid + 1, key.0, key.1, other.value);
    }
  }

  lemma UpsertUids(t: Tables, p: Parsed, row: CacheRow, key: (string, string))
    requires DefinitionsOk(t.definitions, t.nextUid)
    ensures var (after, uid) := UpsertDefinition(t.definitions, t.nextUid, p, row);
            var t' := Tables(after, t.aliases, t.nextUid + 1);
            && UidOf(t', (p.rawSymbol, p.assetClass)) == Some(uid)
            && (UidOf(t, (p.rawSymbol, p.assetClass)) == (if uid == t.nextUid then None else Some(uid)))
            && (key != (p.rawSymbol, p.assetClass) ==> UidOf(t', key) == UidOf(t, key) && UidOf(t, key) != Some(uid))
  {
    hide UidOf;
    hide UpsertDefinition;
    hide DefinitionsOk;
    UpsertOwnUid(t, p, row);
    if key != (p.rawSymbol, p.assetClass) { UpsertOtherUid(t, p, row, key); }
  }

  /** A row leaves its definition with open aliases of its own name only, and with one unless the key was taken. */
  lemma RowOpens(t: Tables, row: CacheRow, today: int)
    requires Consistent(t) && MigrateRow(t, row, today).Success?
    ensures Target(row).Some?
    ensures var t', before := MigrateRow(t, row, today).value, UidOf(t, Target(row).value);
            && UidOf(t', Target(row).value).Some? && (before.Some? ==> UidOf(t', Target(row).value) == before)
            && OpenOnly(t'.aliases, UidOf(t', Target(row).value).value, row.canonicalId)
            && (HasOpen(t'.aliases, UidOf(t', Target(row).value).value, row.canonicalId) <==>
                !KeyTaken(t.aliases, row.canonicalId)
                  || (before.Some? && HasOpen(t.aliases, before.value, row.canonicalId)))
  {
    hide Parse;
    hide UpsertDefinition;
    hide DefinitionsOk;
    hide UniqueKey;
    hide WindowsOrdered;
    hide FindDefinition;
    var p := Parse(row).value;
    UpsertUids(t, p, row, (p.rawSymbol, p.assetClass));
    var (definitions, uid) := UpsertDefinition(t.definitions, t.nextUid, p, row);
    SameDefinitions(Tables(definitions, t.aliases, t.nextUid + 1), MigrateRow(t, row, today).value);
    AliasesOpen(t.aliases, uid, row.canonicalId, today);
    if uid == t.nextUid { assert !HasOpen(t.aliases, uid, row.canonicalId); }
  }

  lemma SameDefinitions(a: Tables, b: Tables)
    requires a.definitions == b.definitions
    ensures forall key :: UidOf(a, key) == UidOf(b, key)
  {
  }

  lemma AliasesOpen(aliases: seq<Alias>, uid: Uid, name: string, today: int)
    ensures var after := InsertAlias(CloseOthers(aliases, uid, name, today), uid, name);
            && OpenOnly(after, uid, name)
            && (HasOpen(after, uid, name) <==> !KeyTaken(aliases, name) || HasOpen(aliases, uid, name))
  {
    var closed := CloseOthers(aliases, uid, name, today);
    var after := InsertAlias(closed, uid, name);
    KeyTakenKept(aliases, uid, name, name, today);
    if HasOpen(aliases, uid, name) {
      var i :| 0 <= i < |aliases| && Open(aliases[i], uid) && aliases[i].name == name;
      assert after[i] == aliases[i];
    }
    if !KeyTaken(aliases, name) { assert Open(after[|closed|], uid); }
    if HasOpen(after, uid, name) && KeyTaken(aliases, name) {
      var i :| 0 <= i < |after| && Open(after[i], uid) && after[i].name == name;
      assert aliases[i] == after[i];
    }
  }

  /** Closing never frees a key; inserting takes only the key of the name inserted. */
  lemma KeyTakenKept(aliases: seq<Alias>, uid: Uid, name: string, key: string, today: int)
    ensures KeyTaken(CloseOthers(aliases, uid, name, today), key) <==> KeyTaken(aliases, key)
    ensures key != name ==>
              (KeyTaken(InsertAlias(CloseOthers(aliases, uid, name, today), uid, name), key)
               <==> KeyTaken(aliases, key))
  {
    var closed := CloseOthers(aliases, uid, name, today);
    var after := InsertAlias(closed, uid, name);
    if i :| 0 <= i < |aliases| && aliases[i].name == key && aliases[i].provider == IB && aliases[i].start == SENTINEL {
      assert closed[i].name == key && closed[i].provider == IB && closed[i].start == SENTINEL;
      assert after[i] == closed[i];
    }
    if i :| 0 <= i < |closed| && closed[i].name == key && closed[i].provider == IB && closed[i].start == SENTINEL {
      assert aliases[i].name == key && aliases[i].provider == IB && aliases[i].start == SENTINEL;
    }
    if key != name {
      if i :| 0 <= i < |after| && after[i].name == key && after[i].provider == IB && after[i].start == SENTINEL {
        assert aliases[i].name == key && aliases[i].provider == IB && aliases[i].start == SENTINEL;
      }
    }
  }

  /** A row for another definition leaves a definition's open aliases alone. */
  lemma RowElsewhere(t: Tables, row: CacheRow, today: int, key: (string, string), name: string)
    requires Consistent(t) && MigrateRow(t, row, today).Success? && Target(row) != Some(key) && row.canonicalId != name
    ensures var t' := MigrateRow(t, row, today).value;
            && UidOf(t', key) == UidOf(t, key)
            && (KeyTaken(t'.aliases, name) <==> KeyTaken(t.aliases, name))
            && forall uid :: UidOf(t, key) == Some(uid) ==>
                 && (OpenOnly(t.aliases, uid, name) ==> OpenOnly(t'.aliases, uid, name))
                 && (HasOpen(t.aliases, uid, name) <==> HasOpen(t'.aliases, uid, name))
  {
    hide Parse;
    hide UpsertDefinition;
    hide DefinitionsOk;
    hide UniqueKey;
    hide WindowsOrdered;
    hide FindDefinition;
    hide KeyTaken;
    hide OpenOnly;
    hide HasOpen;
    var p := Parse(row).value;
    UpsertUids(t, p, row, key);
    var (definitions, mine) := UpsertDefinition(t.definitions, t.nextUid, p, row);
    SameDefinitions(Tables(definitions, t.aliases, t.nextUid + 1), MigrateRow(t, row, today).value);
    KeyTakenKept(t.aliases, mine, row.canonicalId, name, today);
    if UidOf(t, key).Some? { OthersKept(t.aliases, mine, row.canonicalId, UidOf(t, key).value, name, today); }
  }

  lemma OthersKept(aliases: seq<Alias>, mine: Uid, inserted: string, uid: Uid, name: string, today: int)
    requires uid != mine
    ensures var after := InsertAlias(CloseOthers(aliases, mine, inserted, today), mine, inserted);
            && (OpenOnly(aliases, uid, name) ==> OpenOnly(after, uid, name))
            && (HasOpen(aliases, uid, name) <==> HasOpen(after, uid, name))
  {
    hide KeyTaken;
    var after := InsertAlias(CloseOthers(aliases, mine, inserted, today), mine, inserted);
    assert forall i :: 0 <= i < |aliases| ==>
             (Open(after[i], uid) <==> Open(aliases[i], uid)) && after[i].name == aliases[i].name;
    assert |after| > |aliases| ==> !Open(after[|aliases|], uid);
    if HasOpen(aliases, uid, name) {
      var i :| 0 <= i < |aliases| && Open(aliases[i], uid) && aliases[i].name == name;
      assert Open(after[i], uid) && after[i].name == name;
    }
    if HasOpen(after, uid, name) {
      var i :| 0 <= i < |after| && Open(after[i], uid) && after[i].name == name;
      assert Open(aliases[i], uid) && aliases[i].name == name;
    }
  }

  lemma RowKeepsKeys(t: Tables, row: CacheRow, today: int, name: string)
    requires MigrateRow(t, row, today).Success? && row.canonicalId != name
    ensures KeyTaken(MigrateRow(t, row, today).value.aliases, name) <==> KeyTaken(t.aliases, name)
  {
    hide Parse;
    hide UpsertDefinition;
    hide KeyTaken;
    var mine := UpsertDefinition(t.definitions, t.nextUid, Parse(row).value, row).1;
    KeyTakenKept(t.aliases, mine, row.canonicalId, name, today);
  }

  /** `canonical_id` is the primary key of the cache. */
  ghost predicate DistinctIds(rows: seq<CacheRow>) {
    forall i, j :: 0 <= i < j < |rows| ==> rows[i].canonicalId != rows[j].canonicalId
  }

  ghost predicate Touches(rows: seq<CacheRow>, key: (string, string)) {
    exists j :: 0 <= j < |rows| && Target(rows[j]) == Some(key)
  }

  /** The definition has an open alias `name`. */
  ghost predicate Resolves(t: Tables, key: (string, string), name: string) {
    UidOf(t, key).Some? && HasOpen(t.aliases, UidOf(t, key).value, name)
  }

  /** Rows with other names neither take nor free a key, and close the open alias of a definition they touch. */
  lemma {:induction false} OtherNames(t: Tables, rows: seq<CacheRow>, today: int, key: (string, string), name: string)
    requires Consistent(t) && Migrate(t, rows, today).Success?
    requires forall j :: 0 <= j < |rows| ==> rows[j].canonicalId != name
    ensures var t' := Migrate(t, rows, today).value;
            && (KeyTaken(t'.aliases, name) <==> KeyTaken(t.aliases, name))
            && (Resolves(t', key, name) <==> !Touches(rows, key) && Resolves(t, key, name))
  {
    hide MigrateRow;
    hide Consistent;
    hide KeyTaken;
    hide HasOpen;
    hide OpenOnly;
    hide Target;
    hide UidOf;
    if rows != [] {
      var init, last := rows[..|rows| - 1], rows[|rows| - 1];
      assert rows == init + [last];
      var before := Migrate(t, init, today).value;
      OtherNames(t, init, today, key, name);
      MigrationPreserves(t, init, today);
      RowKeepsKeys(before, last, today, name);
      TouchesSnoc(init, last, key);
      if Target(last) == Some(key) {
        RowOpens(before, last, today);
        OnlyNotOther(Migrate(t, rows, today).value.aliases, UidOf(Migrate(t, rows, today).value, key).value,
                     last.canonicalId, name);
      } else {
        RowElsewhere(before, last, today, key, name);
      }
    }
  }

  lemma TouchesSnoc(rows: seq<CacheRow>, row: CacheRow, key: (string, string))
    ensures Touches(rows + [row], key) <==> Touches(rows, key) || Target(row) == Some(key)
  {
    hide Target;
    var all := rows + [row];
    assert all[|rows|] == row && forall j :: 0 <= j < |rows| ==> all[j] == rows[j];
  }

  lemma OnlyNotOther(aliases: seq<Alias>, uid: Uid, name: string, other: string)
    requires OpenOnly(aliases, uid, name) && name != other
    ensures !HasOpen(aliases, uid, other)
  {
  }

  /**
   After the migration the open aliases of a touched definition all carry the canonical id of the last
   cache row mapped to it. There is one unless the key of that alias had been taken beforehand; then
   there is one only if it was open already and no earlier row closed it.
   */
  lemma {:induction false} LastRowWins(t: Tables, rows: seq<CacheRow>, today: int, k: nat)
    requires Consistent(t) && Migrate(t, rows, today).Success? && DistinctIds(rows) && k < |rows|
    requires forall j :: k < j < |rows| ==> Target(rows[j]) != Target(rows[k])
    ensures Target(rows[k]).Some?
    ensures var t', key, name := Migrate(t, rows, today).value, Target(rows[k]).value, rows[k].canonicalId;
            && UidOf(t', key).Some? && OpenOnly(t'.aliases, UidOf(t', key).value, name)
            && (Resolves(t', key, name) <==>
                !KeyTaken(t.aliases, name) || (!Touches(rows[..k], key) && Resolves(t, key, name)))
  {
    hide MigrateRow;
    hide Consistent;
    hide KeyTaken;
    hide HasOpen;
    hide OpenOnly;
    hide Target;
    hide UidOf;
    var init, last := rows[..|rows| - 1], rows[|rows| - 1];
    var before := Migrate(t, init, today).value;
    MigrationPreserves(t, init, today);
    if k == |rows| - 1 {
      RowOpens(before, last, today);
      OtherNames(t, init, today, Target(last).value, last.canonicalId);
    } else {
      assert init[..k] == rows[..k] && init[k] == rows[k];
      LastRowWins(t, init, today, k);
      RowElsewhere(before, last, today, Target(rows[k]).value, rows[k].canonicalId);
    }
  }

  lemma EquityParses(name: string, symbol: string, refreshedAt: int)
    requires name == symbol + "." + "NASDAQ"
    ensures Parse(CacheRow(name, Some("equity"), None, None, refreshedAt))
            == Success(Parsed(symbol, "equity", "NASDAQ", "NASDAQ"))
  {
    hide SplitLast;
    hide StripLeft;
    hide StripRight;
    hide Lower;
    SplitComplete(symbol, "NASDAQ");
    assert KNOWN_VENUES[10] == "NASDAQ";
    NormalizedExact("equity", "equity");
    assert WritesAt("equity", 0, 6, "equity");
  }

  /** Such tables: the key of the migrated alias is held by a window that was closed before. */
  lemma ClosedKeyStrands()
    ensures var t := Tables([], [Alias(7, "AAPL.NASDAQ", IB, SENTINEL, Some(5))], 8);
            var row := CacheRow("AAPL.NASDAQ", Some("equity"), None, None, 0);
            var key := ("AAPL", "equity");
            && Consistent(t) && NoneFuture(t, 10) && Migrate(t, [row], 10).Success? && Target(row) == Some(key)
            && var t' := Migrate(t, [row], 10).value;
               && UidOf(t', key).Some? && !Resolves(t', key, "AAPL.NASDAQ")
               && forall i :: 0 <= i < |t'.aliases| ==> !Open(t'.aliases[i], UidOf(t', key).value)
  {
    hide Parse;
    hide MigrateRow;
    hide FindDefinition;
    var t := Tables([], [Alias(7, "AAPL.NASDAQ", IB, SENTINEL, Some(5))], 8);
    var row := CacheRow("AAPL.NASDAQ", Some("equity"), None, None, 0);
    assert "AAPL.NASDAQ" == "AAPL" + "." + "NASDAQ";
    EquityParses("AAPL.NASDAQ", "AAPL", 0);
    ParseableExact(row);
    SucceedsExactly(t, [row], 10);
    LastRowWins(t, [row], 10, 0);
    assert KeyTaken(t.aliases, "AAPL.NASDAQ") by { assert t.aliases[0].name == "AAPL.NASDAQ"; }
    assert !HasOpen(t.aliases, 7, "AAPL.NASDAQ");
    var t', key := Migrate(t, [row], 10).value, ("AAPL", "equity");
    FoundDefinition(t.definitions, key.0, key.1);
    assert UidOf(t, key) == None;
    var uid := UidOf(t', key).value;
    forall i | 0 <= i < |t'.aliases| ensures !Open(t'.aliases[i], uid) {
      assert Open(t'.aliases[i], uid) ==> HasOpen(t'.aliases, uid, "AAPL.NASDAQ");
    }
  }
}
