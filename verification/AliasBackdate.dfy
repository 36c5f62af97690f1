/**
 The backdating update of backend/alembic/versions/b6a7b8c9d0e1_backdate_time_invariant_aliases.py: one
 UPDATE moves the start of selected open alias windows to a far-past anchor. Rows of the table are
 numbered by their physical position; dates are day numbers.
 */
module AliasBackdate {
  import opened Wrappers

  /** The day number of 1900-01-01. */
  const ANCHOR := 0

  type Uid = nat

  /** A window from `start` up to but not including `end`. */
  datatype Alias = Alias(uid: Uid, name: string, provider: string, start: int, end: Option<int>)

  predicate TimeInvariant(assetClass: string) { assetClass in ["equity", "fx", "crypto"] }

  predicate SameKey(a: Alias, b: Alias) { a.name == b.name && a.provider == b.provider }

  predicate Active(a: Alias, day: int) { a.start <= day && (a.end.None? || day < a.end.value) }

  /** The rows that the inner query ranks. */
  predicate Candidate(rows: seq<Alias>, classes: map<Uid, string>, i: nat)
    requires i < |rows|
  {
    && rows[i].end.None? && rows[i].uid in classes && TimeInvariant(classes[rows[i].uid]) && rows[i].start > ANCHOR
    && (forall j :: 0 <= j < |rows| ==> !(SameKey(rows[j], rows[i]) && rows[j].start == ANCHOR))
    && forall j :: 0 <= j < |rows| ==> !(rows[j].uid == rows[i].uid && rows[j].end.Some?)
  }

  /** The order within one group of the ranking: by start, then by position. */
  predicate RanksBefore(rows: seq<Alias>, i: nat, j: nat)
    requires i < |rows| && j < |rows|
  {
    rows[i].start < rows[j].start || (rows[i].start == rows[j].start && i <= j)
  }

  /** The row is number one of its group. */
  predicate Moves(rows: seq<Alias>, classes: map<Uid, string>, i: nat)
    requires i < |rows|
  {
    && Candidate(rows, classes, i)
    && forall j :: 0 <= j < |rows| && SameKey(rows[j], rows[i]) && Candidate(rows, classes, j) ==>
         RanksBefore(rows, i, j)
  }

  // ---- The same over the columns

  /**
   An open window of an equity, currency pair or crypto asset that starts after the anchor, whose name has no
   window from the anchor yet and whose definition has no closed window.
   */
  ghost predicate Eligible(rows: seq<Alias>, classes: map<Uid, string>, i: nat) {
    && i < |rows| && rows[i].end == None && rows[i].start > 0 && rows[i].uid in classes
    && (classes[rows[i].uid] == "equity" || classes[rows[i].uid] == "fx" || classes[rows[i].uid] == "crypto")
    && (forall j :: 0 <= j < |rows| && rows[j].name == rows[i].name && rows[j].provider == rows[i].provider ==>
          rows[j].start != 0)
    && forall j :: 0 <= j < |rows| && rows[j].uid == rows[i].uid ==> rows[j].end == None
  }

  /** Of the eligible windows of its name and provider, this one starts first, and of those the first row. */
  ghost predicate FirstEligible(rows: seq<Alias>, classes: map<Uid, string>, i: nat) {
    && Eligible(rows, classes, i)
    && forall j: nat ::
         Eligible(rows, classes, j) && j != i && rows[j].name == rows[i].name && rows[j].provider == rows[i].provider
         ==> rows[i].start < rows[j].start || (rows[i].start == rows[j].start && i < j)
  }

  lemma EligibleExact(rows: seq<Alias>, classes: map<Uid, string>, i: nat)
    ensures i < |rows| ==> (Candidate(rows, classes, i) <==> Eligible(rows, classes, i))
    ensures Eligible(rows, classes, i) ==> i < |rows|
  {
  }

  lemma MovesExact(rows: seq<Alias>, classes: map<Uid, string>, i: nat)
    requires i < |rows|
    ensures Moves(rows, classes, i) <==> FirstEligible(rows, classes, i)
  {
    forall j: nat { EligibleExact(rows, classes, j); }
    hide Candidate;
    hide Eligible;
  }

  /** Windows of futures, options and unknown classes are never touched. */
  lemma OthersUntouched(rows: seq<Alias>, classes: map<Uid, string>, i: nat)
    requires i < |rows|
    requires rows[i].uid in classes ==> classes[rows[i].uid] !in {"equity", "fx", "crypto"}
    ensures Backdated(rows, classes)[i] == rows[i]
  {
    MovesExact(rows, classes, i);
    hide Moves;
  }

  function Backdated(rows: seq<Alias>, classes: map<Uid, string>): (r: seq<Alias>)
    ensures |r| == |rows|
  {
    seq(|rows|, i requires 0 <= i < |rows| => if Moves(rows, classes, i) then rows[i].(start := ANCHOR) else rows[i])
  }

  method Backdate(table: array<Alias>, classes: map<Uid, string>)
    modifies table
    ensures table[..] == Backdated(old(table[..]), classes)
    ensures forall i :: 0 <= i < table.Length ==>
              table[i] == old(if FirstEligible(table[..], classes, i) then table[i].(start := 0) else table[i])
  {
    hide Moves;
    hide FirstEligible;
    var rows := table[..];
    forall i | 0 <= i < table.Length && Moves(rows, classes, i) {
      table[i] := rows[i].(start := ANCHOR);
    }
    forall i | 0 <= i < table.Length { MovesExact(rows, classes, i); }
  }

  // ---- The unique key and the windows

  /** `uq_instrument_aliases_string_provider_from` */
  ghost predicate UniqueKey(rows: seq<Alias>) {
    forall i, j :: 0 <= i < |rows| && 0 <= j < |rows| && i != j && SameKey(rows[i], rows[j]) ==>
             rows[i].start != rows[j].start
  }

  ghost predicate DefinitionsDisjoint(rows: seq<Alias>) {
    forall i, j, day :: 0 <= i < |rows| && 0 <= j < |rows| && i != j && rows[i].uid == rows[j].uid ==>
      !(Active(rows[i], day) && Active(rows[j], day))
  }

  ghost predicate KeysDisjoint(rows: seq<Alias>) {
    forall i, j, day :: 0 <= i < |rows| && 0 <= j < |rows| && i != j && SameKey(rows[i], rows[j]) ==>
      !(Active(rows[i], day) && Active(rows[j], day))
  }

  /** At most one row of a group moves, and none where the anchor is already taken. */
  lemma MovesAlone(rows: seq<Alias>, classes: map<Uid, string>, i: nat, j: nat)
    requires i < |rows| && j < |rows| && i != j && SameKey(rows[i], rows[j]) && Moves(rows, classes, i)
    ensures !Moves(rows, classes, j) && rows[j].start != ANCHOR
  {
    assert Candidate(rows, classes, i);
    assert SameKey(rows[j], rows[i]);
  }

  lemma UniqueKeyKept(rows: seq<Alias>, classes: map<Uid, string>)
    requires UniqueKey(rows)
    ensures UniqueKey(Backdated(rows, classes))
  {
    hide Moves;
    var after := Backdated(rows, classes);
    forall i, j | 0 <= i < |rows| && 0 <= j < |rows| && i != j && SameKey(after[i], after[j])
      ensures after[i].start != after[j].start
    {
      if Moves(rows, classes, i) { MovesAlone(rows, classes, i, j); }
      if Moves(rows, classes, j) { MovesAlone(rows, classes, j, i); }
    }
  }

  /** A window only grows, to the left, down to the anchor; ends and identities stay. */
  lemma WindowsGrow(rows: seq<Alias>, classes: map<Uid, string>, i: nat, day: int)
    requires i < |rows|
    ensures var a, b := rows[i], Backdated(rows, classes)[i];
            && b == a.(start := b.start) && (Active(a, day) ==> Active(b, day))
            && (Active(b, day) && !Active(a, day) ==> ANCHOR <= day < a.start && a.end.None? && Moves(rows, classes, i))
  {
  }

  /** An eligible group gets its earliest row backdated, and only that one. */
  lemma {:induction false} GroupMoves(rows: seq<Alias>, classes: map<Uid, string>, i: nat) returns (first: nat)
    requires i < |rows| && Candidate(rows, classes, i)
    ensures first < |rows| && Moves(rows, classes, first) && SameKey(rows[first], rows[i])
    ensures Backdated(rows, classes)[first] == rows[first].(start := ANCHOR)
    ensures forall j :: 0 <= j < |rows| && SameKey(rows[j], rows[i]) && j != first ==>
              Backdated(rows, classes)[j] == rows[j]
  {
    first := i;
    var k := 0;
    while k < |rows|
      invariant 0 <= k <= |rows| && first < |rows| && Candidate(rows, classes, first) && SameKey(rows[first], rows[i])
      invariant forall j ::
                  0 <= j < k && SameKey(rows[j], rows[i]) && Candidate(rows, classes, j) ==> RanksBefore(rows, first, j)
    {
      hide Candidate;
      if SameKey(rows[k], rows[i]) && Candidate(rows, classes, k) && !RanksBefore(rows, first, k) { first := k; }
      k := k + 1;
    }
    forall j | 0 <= j < |rows| && SameKey(rows[j], rows[i]) && j != first ensures !Moves(rows, classes, j) {
      MovesAlone(rows, classes, first, j);
    }
  }

  /** A definition all of whose windows are open and disjoint has only one. */
  lemma OpenAlone(rows: seq<Alias>, classes: map<Uid, string>, i: nat, j: nat)
    requires DefinitionsDisjoint(rows) && i < |rows| && j < |rows| && rows[i].uid == rows[j].uid
             && Candidate(rows, classes, i)
    ensures i == j
  {
    var day := if rows[i].start < rows[j].start then rows[j].start else rows[i].start;
    assert rows[j].end.None?;
    assert Active(rows[i], day) && Active(rows[j], day);
  }

  lemma DefinitionsStayDisjoint(rows: seq<Alias>, classes: map<Uid, string>)
    requires DefinitionsDisjoint(rows)
    ensures DefinitionsDisjoint(Backdated(rows, classes))
  {
    hide Candidate;
    var after := Backdated(rows, classes);
    forall i, j, day | 0 <= i < |rows| && 0 <= j < |rows| && i != j && after[i].uid == after[j].uid
      ensures !(Active(after[i], day) && Active(after[j], day))
    {
      if Moves(rows, classes, i) { OpenAlone(rows, classes, i, j); }
      if Moves(rows, classes, j) { OpenAlone(rows, classes, j, i); }
      assert !(Active(rows[i], day) && Active(rows[j], day));
    }
  }

  /**
   The guards look for closed windows of the same definition, not of the same alias: a row of the same
   alias under another definition, active between the anchor and the start of a row that moves, now
   overlaps it.
   */
  ghost predicate Reused(rows: seq<Alias>, classes: map<Uid, string>, i: nat, j: nat, day: int) {
    && i < |rows| && j < |rows| && i != j && SameKey(rows[i], rows[j])
    && Moves(rows, classes, i) && ANCHOR <= day < rows[i].start && Active(rows[j], day)
  }

  /** The windows of each alias stay disjoint exactly if no alias that moves was in use before. */
  lemma KeysStayDisjointExactly(rows: seq<Alias>, classes: map<Uid, string>)
    requires KeysDisjoint(rows)
    ensures KeysDisjoint(Backdated(rows, classes)) <==> forall i: nat, j: nat, day :: !Reused(rows, classes, i, j, day)
  {
    hide Moves;
    var after := Backdated(rows, classes);
    if i: nat, j: nat, day :| Reused(rows, classes, i, j, day) {
      WindowsGrow(rows, classes, j, day);
      MovesOpen(rows, classes, i);
      assert SameKey(after[i], after[j]) && Active(after[i], day) && Active(after[j], day);
    } else {
      forall i, j, day | 0 <= i < |rows| && 0 <= j < |rows| && i != j && SameKey(after[i], after[j])
        ensures !(Active(after[i], day) && Active(after[j], day))
      {
        if Moves(rows, classes, i) { MovesAlone(rows, classes, i, j); }
        if Moves(rows, classes, j) { MovesAlone(rows, classes, j, i); }
        assert SameKey(rows[i], rows[j]) && !(Active(rows[i], day) && Active(rows[j], day));
        assert !Reused(rows, classes, i, j, day) && !Reused(rows, classes, j, i, day);
      }
    }
  }

  lemma MovesOpen(rows: seq<Alias>, classes: map<Uid, string>, i: nat)
    requires i < |rows| && Moves(rows, classes, i)
    ensures rows[i].end.None?
  {
  }

  /** Such a table: an alias that one definition used in the past and another one uses now. */
  lemma ReuseOverlaps()
    ensures var rows := [Alias(0, "A", "p", 10, Some(20)), Alias(1, "A", "p", 20, None)];
            var classes := map[0 := "equity", 1 := "equity"];
            UniqueKey(rows) && KeysDisjoint(rows) && DefinitionsDisjoint(rows)
              && !KeysDisjoint(Backdated(rows, classes))
  {
    var rows := [Alias(0, "A", "p", 10, Some(20)), Alias(1, "A", "p", 20, None)];
    var classes := map[0 := "equity", 1 := "equity"];
    assert TimeInvariant("equity");
    assert Candidate(rows, classes, 1) && !Candidate(rows, classes, 0);
    assert Reused(rows, classes, 1, 0, 15);
    KeysStayDisjointExactly(rows, classes);
  }

  /** Running the update a second time changes nothing. */
  lemma Idempotent(rows: seq<Alias>, classes: map<Uid, string>)
    ensures Backdated(Backdated(rows, classes), classes) == Backdated(rows, classes)
  {
    hide Candidate;
    var after := Backdated(rows, classes);
    forall i | 0 <= i < |rows| ensures !Moves(after, classes, i) {
      if Candidate(after, classes, i) {
        CandidateBefore(rows, classes, i);
        var first := GroupMoves(rows, classes, i);
        AnchorTaken(after, classes, i, first);
      }
    }
  }

  lemma CandidateBefore(rows: seq<Alias>, classes: map<Uid, string>, i: nat)
    requires i < |rows| && Candidate(Backdated(rows, classes), classes, i)
    ensures Candidate(rows, classes, i) && Backdated(rows, classes)[i] == rows[i]
  {
    hide Moves;
    var after := Backdated(rows, classes);
    forall j | 0 <= j < |rows|
      ensures !(SameKey(rows[j], rows[i]) && rows[j].start == ANCHOR)
              && !(rows[j].uid == rows[i].uid && rows[j].end.Some?)
    {
      assert !(SameKey(after[j], after[i]) && after[j].start == ANCHOR)
             && !(after[j].uid == after[i].uid && after[j].end.Some?);
    }
  }

  lemma AnchorTaken(rows: seq<Alias>, classes: map<Uid, string>, i: nat, j: nat)
    requires i < |rows| && j < |rows| && SameKey(rows[j], rows[i]) && rows[j].start == ANCHOR
    ensures !Candidate(rows, classes, i)
  {
  }
}
