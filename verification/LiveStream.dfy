/**
 The reducer of frontend/src/lib/use-live-stream.ts: a list-based fold over wire messages, and what its
 result says about the messages received.
 */
module LiveStream {
  import opened Wrappers

  /** `qty` is the parsed quantity; a text that does not parse has none. */
  datatype Position = Position(instrument: string, qty: Option<real>, avgPrice: string)

  datatype Fill = Fill(orderId: string, qty: string, price: string)

  datatype OrderStatus = OrderStatus(orderId: string, status: string)

  datatype Account = Account(id: string, balance: string)

  /** A wire message as each reader would take it. */
  datatype Raw =
    | NotObject
    | Object(kind: Option<string>, eventType: Option<string>, positions: Option<seq<Position>>,
             account: Option<Account>, position: Position, fill: Fill, change: OrderStatus, update: Account,
             reason: string, status: string)

  datatype Message =
    | Ignored
    | Snapshot(positions: seq<Position>, account: Option<Account>)
    | PositionReport(position: Position)
    | FillReport(fill: Fill)
    | OrderReport(change: OrderStatus)
    | AccountReport(update: Account)
    | RiskHalt(reason: string)
    | StatusReport(status: string)

  datatype State = State(
    positions: seq<Position>, account: Option<Account>, halted: bool, haltReason: Option<string>,
    deploymentStatus: Option<string>, recentFills: seq<Fill>, recentOrderStatuses: seq<OrderStatus>)

  const FILL_HISTORY_LIMIT := 50
  const ORDER_STATUS_HISTORY_LIMIT := 50

  const INITIAL := State([], None, false, None, None, [], [])

  /** Control messages go first, then the event types. */
  function Read(raw: Raw): Message {
    if raw.NotObject? || raw.kind == Some("heartbeat") then Ignored
    else if raw.kind == Some("snapshot")
    then Snapshot(if raw.positions.Some? then raw.positions.value else [], raw.account)
    else match raw.eventType
      case None => Ignored
      case Some(t) =>
        if t == "position_snapshot" then PositionReport(raw.position)
        else if t == "fill" then FillReport(raw.fill)
        else if t == "order_status" then OrderReport(raw.change)
        else if t == "account_state" then AccountReport(raw.update)
        else if t == "risk_halt" then RiskHalt(raw.reason)
        else if t == "deployment_status" then StatusReport(raw.status)
        else Ignored
  }

  predicate Closed(p: Position) { p.qty == Some(0.0) }

  /** The positions of other instruments. */
  function Others(positions: seq<Position>, instrument: string): seq<Position> {
    if positions == [] then []
    else (if positions[0].instrument != instrument then [positions[0]] else []) + Others(positions[1..], instrument)
  }

  function Newest<T>(s: seq<T>, limit: nat): seq<T> { if |s| <= limit then s else s[..limit] }

  function ApplyPosition(positions: seq<Position>, p: Position): seq<Position> {
    Others(positions, p.instrument) + if Closed(p) then [] else [p]
  }

  function Apply(s: State, raw: Raw): State {
    match Read(raw)
    case Ignored => s
    case Snapshot(positions, account) => s.(positions := positions, account := account)
    case PositionReport(p) => s.(positions := ApplyPosition(s.positions, p))
    case FillReport(f) => s.(recentFills := Newest([f] + s.recentFills, FILL_HISTORY_LIMIT))
    case OrderReport(c) => s.(recentOrderStatuses := Newest([c] + s.recentOrderStatuses, ORDER_STATUS_HISTORY_LIMIT))
    case AccountReport(a) => s.(account := Some(a))
    case RiskHalt(reason) => s.(halted := true, haltReason := Some(reason))
    case StatusReport(status) => s.(deploymentStatus := Some(status))
  }

  /** The state after a message sequence. */
  function Fold(messages: seq<Raw>): State {
    if messages == [] then INITIAL else Apply(Fold(messages[..|messages| - 1]), messages[|messages| - 1])
  }

  // ---- What a message is, by its own fields

  ghost predicate IsSnapshot(raw: Raw) { raw.Object? && raw.kind == Some("snapshot") }

  /** An event of this type, which is not a heartbeat or snapshot. */
  ghost predicate IsEvent(raw: Raw, eventType: string) {
    raw.Object? && raw.kind != Some("heartbeat") && raw.kind != Some("snapshot") && raw.eventType == Some(eventType)
  }

  /** Each kind of message is read from its own fields, and nothing else has an effect. */
  lemma ReadExact(raw: Raw)
    ensures Read(raw) == (if IsSnapshot(raw)
                          then Snapshot(match raw.positions case Some(list) => list case None => [], raw.account)
                          else if IsEvent(raw, "position_snapshot") then PositionReport(raw.position)
                          else if IsEvent(raw, "fill") then FillReport(raw.fill)
                          else if IsEvent(raw, "order_status") then OrderReport(raw.change)
                          else if IsEvent(raw, "account_state") then AccountReport(raw.update)
                          else if IsEvent(raw, "risk_halt") then RiskHalt(raw.reason)
                          else if IsEvent(raw, "deployment_status") then StatusReport(raw.status)
                          else Ignored)
    ensures forall a, b :: IsEvent(raw, a) && IsEvent(raw, b) ==> a == b
    ensures forall a :: IsEvent(raw, a) ==> !IsSnapshot(raw)
  {
  }

  // ---- Positions

  /** All position records received since the last snapshot, the snapshot's own first. */
  ghost function Reports(messages: seq<Raw>): seq<Position> {
    if messages == [] then []
    else
      var before, last := Reports(messages[..|messages| - 1]), messages[|messages| - 1];
      if IsSnapshot(last) then (match last.positions case Some(list) => list case None => [])
      else if IsEvent(last, "position_snapshot") then before + [last.position]
      else before
  }

  predicate Mentions(reports: seq<Position>, instrument: string) {
    exists i :: 0 <= i < |reports| && reports[i].instrument == instrument
  }

  /** The records that are the last of their instrument and not closed, in order of arrival. */
  function Current(reports: seq<Position>): seq<Position> {
    if reports == [] then []
    else (if Mentions(reports[1..], reports[0].instrument) || Closed(reports[0]) then [] else [reports[0]])
         + Current(reports[1..])
  }

  /** One record an instrument, none of them closed. */
  predicate WellFormedPositions(positions: seq<Position>) {
    && (forall i :: 0 <= i < |positions| ==> positions[i].qty != Some(0.0))
    && forall i, j :: 0 <= i < j < |positions| ==> positions[i].instrument != positions[j].instrument
  }

  ghost predicate WellFormedSnapshots(messages: seq<Raw>) {
    forall i :: 0 <= i < |messages| && IsSnapshot(messages[i]) && messages[i].positions.Some? ==>
      WellFormedPositions(messages[i].positions.value)
  }

  lemma {:induction false} CurrentOfWellFormed(positions: seq<Position>)
    requires WellFormedPositions(positions)
    ensures Current(positions) == positions
  {
    if positions != [] {
      assert !Mentions(positions[1..], positions[0].instrument);
      CurrentOfWellFormed(positions[1..]);
    }
  }

  lemma {:induction false} OthersAppend(a: seq<Position>, b: seq<Position>, instrument: string)
    ensures Others(a + b, instrument) == Others(a, instrument) + Others(b, instrument)
  {
    if a == [] {
      assert a + b == b;
    } else {
      OthersAppend(a[1..], b, instrument);
      var head := if a[0].instrument != instrument then [a[0]] else [];
      assert (a + b)[1..] == a[1..] + b && (a + b)[0] == a[0];
      assert head + (Others(a[1..], instrument) + Others(b, instrument))
             == (head + Others(a[1..], instrument)) + Others(b, instrument);
    }
  }

  lemma MentionsSnoc(reports: seq<Position>, p: Position, instrument: string)
    ensures Mentions(reports + [p], instrument) <==> Mentions(reports, instrument) || p.instrument == instrument
  {
    var all := reports + [p];
    assert all[|reports|] == p && forall i :: 0 <= i < |reports| ==> all[i] == reports[i];
  }

  /** One more record replaces its instrument's entry and moves it to the end. */
  lemma {:induction false} CurrentSnoc(reports: seq<Position>, p: Position)
    ensures Current(reports + [p]) == ApplyPosition(Current(reports), p)
  {
    hide Closed;
    if reports == [] {
      assert [p][1..] == [];
    } else {
      CurrentSnoc(reports[1..], p);
      HeadKept(reports, p);
    }
  }

  /** What the first record contributes. */
  function Kept(head: Position, tail: seq<Position>): seq<Position> {
    if Mentions(tail, head.instrument) || Closed(head) then [] else [head]
  }

  lemma CurrentUnfold(reports: seq<Position>)
    requires reports != []
    ensures Current(reports) == Kept(reports[0], reports[1..]) + Current(reports[1..])
  {
    hide Mentions;
    hide Closed;
  }

  /** One more record behind the first one drops it if it has the same instrument. */
  lemma KeptSnoc(head: Position, tail: seq<Position>, p: Position)
    ensures Kept(head, tail + [p]) == Others(Kept(head, tail), p.instrument)
  {
    hide Mentions;
    hide Closed;
    MentionsSnoc(tail, p, head.instrument);
    OthersOne(head, p.instrument);
  }

  lemma OthersOne(head: Position, instrument: string)
    ensures Others([head], instrument) == (if head.instrument == instrument then [] else [head])
    ensures Others([], instrument) == []
  {
    assert [head][1..] == [];
  }

  lemma HeadKept(reports: seq<Position>, p: Position)
    requires reports != []
    requires Current(reports[1..] + [p]) == ApplyPosition(Current(reports[1..]), p)
    ensures Current(reports + [p]) == ApplyPosition(Current(reports), p)
  {
    hide Closed;
    hide Current;
    hide Kept;
    hide Others;
    var head, tail := reports[0], reports[1..];
    assert (reports + [p])[1..] == tail + [p] && (reports + [p])[0] == head;
    CurrentUnfold(reports);
    CurrentUnfold(reports + [p]);
    KeptSnoc(head, tail, p);
    OthersAppend(Kept(head, tail), Current(tail), p.instrument);
    var last := if Closed(p) then [] else [p];
    var before, after := Others(Kept(head, tail), p.instrument), Others(Current(tail), p.instrument);
    assert before + (after + last) == (before + after) + last;
  }

  /** The position table is exactly the latest open record of each instrument since the last snapshot. */
  lemma {:induction false} PositionsExact(messages: seq<Raw>)
    requires WellFormedSnapshots(messages)
    ensures Fold(messages).positions == Current(Reports(messages))
  {
    hide Read;
    if messages != [] {
      var init, last := messages[..|messages| - 1], messages[|messages| - 1];
      assert messages == init + [last];
      PositionsExact(init);
      ReadExact(last);
      hide IsEvent;
      match Read(last)
      case Snapshot(positions, _) =>
        assert IsSnapshot(messages[|init|]);
        CurrentOfWellFormed(positions);
      case PositionReport(p) => CurrentSnoc(Reports(init), p);
      case _ =>
    }
  }

  /** The last record of an instrument. */
  function LastOf(reports: seq<Position>, instrument: string): Option<Position> {
    if reports == [] then None
    else if reports[|reports| - 1].instrument == instrument then Some(reports[|reports| - 1])
    else LastOf(reports[..|reports| - 1], instrument)
  }

  lemma {:induction false} OthersMembers(positions: seq<Position>, instrument: string)
    ensures forall p :: p in Others(positions, instrument) <==> p in positions && p.instrument != instrument
  {
    if positions != [] {
      OthersMembers(positions[1..], instrument);
      assert positions == [positions[0]] + positions[1..];
    }
  }

  lemma {:induction false} OthersWellFormed(positions: seq<Position>, instrument: string)
    requires WellFormedPositions(positions)
    ensures WellFormedPositions(Others(positions, instrument))
  {
    hide Closed;
    if positions != [] {
      var rest := Others(positions[1..], instrument);
      OthersWellFormed(positions[1..], instrument);
      OthersMembers(positions[1..], instrument);
      forall i | 0 <= i < |rest| ensures rest[i].instrument != positions[0].instrument {
        assert rest[i] in positions[1..];
      }
    }
  }

  /** As a map from instruments: an entry is there exactly if it is the last record and open, and only once. */
  lemma {:induction false} CurrentIsMap(reports: seq<Position>)
    ensures WellFormedPositions(Current(reports))
    ensures forall p :: p in Current(reports) <==> LastOf(reports, p.instrument) == Some(p) && !Closed(p)
  {
    hide Closed;
    hide Current;
    hide WellFormedPositions;
    if reports == [] {
      NoneCurrent();
    } else {
      var init, last := reports[..|reports| - 1], reports[|reports| - 1];
      assert reports == init + [last];
      CurrentIsMap(init);
      CurrentSnoc(init, last);
      ApplyMembers(Current(init), last);
    }
  }

  lemma NoneCurrent()
    ensures Current([]) == [] && WellFormedPositions([])
  {
  }

  lemma ApplyMembers(positions: seq<Position>, last: Position)
    requires WellFormedPositions(positions)
    ensures WellFormedPositions(ApplyPosition(positions, last))
    ensures forall p :: p in ApplyPosition(positions, last)
                        <==> (p in positions && p.instrument != last.instrument) || (p == last && !Closed(last))
  {
    hide Others;
    var others := Others(positions, last.instrument);
    OthersMembers(positions, last.instrument);
    OthersWellFormed(positions, last.instrument);
    assert forall i :: 0 <= i < |others| ==> others[i] in others;
  }

  /** The table holds one entry per instrument: its last record since the last snapshot, unless that is closed. */
  lemma PositionsAreLatest(messages: seq<Raw>)
    requires WellFormedSnapshots(messages)
    ensures WellFormedPositions(Fold(messages).positions)
    ensures forall p ::
              p in Fold(messages).positions
              <==> LastOf(Reports(messages), p.instrument) == Some(p) && p.qty != Some(0.0)
  {
    hide Fold;
    hide Reports;
    PositionsExact(messages);
    CurrentIsMap(Reports(messages));
  }

  // ---- Histories, halt, account and status

  /** All fills received, newest first. */
  ghost function Fills(messages: seq<Raw>): seq<Fill> {
    if messages == [] then []
    else
      var last := messages[|messages| - 1];
      (if IsEvent(last, "fill") then [last.fill] else []) + Fills(messages[..|messages| - 1])
  }

  ghost function OrderStatuses(messages: seq<Raw>): seq<OrderStatus> {
    if messages == [] then []
    else
      var last := messages[|messages| - 1];
      (if IsEvent(last, "order_status") then [last.change] else []) + OrderStatuses(messages[..|messages| - 1])
  }

  lemma NewestOfNewest<T>(x: T, s: seq<T>, limit: nat)
    ensures Newest([x] + Newest(s, limit), limit) == Newest([x] + s, limit)
  {
  }

  /** The histories are the newest 50 of all fills and order statuses, newest first. */
  lemma HistoriesExact(messages: seq<Raw>)
    ensures var fills := Fills(messages);
            Fold(messages).recentFills == if |fills| <= 50 then fills else fills[..50]
    ensures var changes := OrderStatuses(messages);
            Fold(messages).recentOrderStatuses == if |changes| <= 50 then changes else changes[..50]
  {
    HistoriesNewest(messages);
  }

  lemma {:induction false} HistoriesNewest(messages: seq<Raw>)
    ensures Fold(messages).recentFills == Newest(Fills(messages), FILL_HISTORY_LIMIT)
    ensures Fold(messages).recentOrderStatuses == Newest(OrderStatuses(messages), ORDER_STATUS_HISTORY_LIMIT)
  {
    hide Read;
    hide Newest;
    hide IsEvent;
    if messages == [] {
      NewestOfNone<Fill>(FILL_HISTORY_LIMIT);
      NewestOfNone<OrderStatus>(ORDER_STATUS_HISTORY_LIMIT);
    } else {
      var init, last := messages[..|messages| - 1], messages[|messages| - 1];
      HistoriesNewest(init);
      ReadFields(last);
      match Read(last)
      case FillReport(f) => NewestOfNewest(f, Fills(init), FILL_HISTORY_LIMIT);
      case OrderReport(c) => NewestOfNewest(c, OrderStatuses(init), ORDER_STATUS_HISTORY_LIMIT);
      case _ =>
        assert [] + Fills(init) == Fills(init) && [] + OrderStatuses(init) == OrderStatuses(init);
    }
  }

  lemma NewestOfNone<T>(limit: nat)
    ensures Newest<T>([], limit) == []
  {
  }

  lemma ReadFields(raw: Raw)
    ensures Read(raw).FillReport? <==> IsEvent(raw, "fill")
    ensures Read(raw).FillReport? ==> Read(raw).fill == raw.fill
    ensures Read(raw).OrderReport? <==> IsEvent(raw, "order_status")
    ensures Read(raw).OrderReport? ==> Read(raw).change == raw.change
    ensures Read(raw).AccountReport? <==> IsEvent(raw, "account_state")
    ensures Read(raw).AccountReport? ==> Read(raw).update == raw.update
    ensures Read(raw).RiskHalt? <==> IsEvent(raw, "risk_halt")
    ensures Read(raw).RiskHalt? ==> Read(raw).reason == raw.reason
    ensures Read(raw).StatusReport? <==> IsEvent(raw, "deployment_status")
    ensures Read(raw).StatusReport? ==> Read(raw).status == raw.status
    ensures Read(raw).Snapshot? <==> IsSnapshot(raw)
    ensures Read(raw).Snapshot? ==> Read(raw).account == raw.account
  {
    ReadExact(raw);
  }

  /** The last halt received. */
  ghost predicate LastHalt(messages: seq<Raw>, i: nat) {
    && i < |messages| && IsEvent(messages[i], "risk_halt")
    && forall j :: i < j < |messages| ==> !IsEvent(messages[j], "risk_halt")
  }

  lemma HaltStep(messages: seq<Raw>)
    requires messages != []
    ensures var before, last := Fold(messages[..|messages| - 1]), messages[|messages| - 1];
            && Fold(messages).halted == (before.halted || IsEvent(last, "risk_halt"))
            && Fold(messages).haltReason == if IsEvent(last, "risk_halt") then Some(last.reason) else before.haltReason
  {
    hide Read;
    hide IsEvent;
    ReadFields(messages[|messages| - 1]);
  }

  lemma {:induction false} HaltFound(messages: seq<Raw>) returns (i: nat)
    requires Fold(messages).halted
    ensures LastHalt(messages, i) && Fold(messages).haltReason == Some(messages[i].reason)
  {
    hide IsEvent;
    hide Apply;
    var init, last := messages[..|messages| - 1], |messages| - 1;
    HaltStep(messages);
    if IsEvent(messages[last], "risk_halt") {
      i := last;
      HaltIsObject(messages[i]);
    } else {
      i := HaltFound(init);
      assert init[i] == messages[i];
      assert forall j :: i < j < |init| ==> init[j] == messages[j];
    }
  }

  lemma HaltIsObject(raw: Raw)
    requires IsEvent(raw, "risk_halt")
    ensures raw.Object?
  {
  }

  lemma {:induction false} HaltsKept(messages: seq<Raw>, i: nat)
    requires i < |messages| && IsEvent(messages[i], "risk_halt")
    ensures Fold(messages).halted
  {
    hide IsEvent;
    hide Apply;
    hide Fold;
    HaltStep(messages);
    if i < |messages| - 1 { HaltsKept(messages[..|messages| - 1], i); }
  }

  /** A stream is halted exactly if a halt was ever received, with the reason of the last one; nothing clears it. */
  lemma HaltExact(messages: seq<Raw>)
    ensures Fold(messages).halted <==> exists i :: 0 <= i < |messages| && IsEvent(messages[i], "risk_halt")
    ensures Fold(messages).halted ==>
              exists i: nat :: LastHalt(messages, i) && Fold(messages).haltReason == Some(messages[i].reason)
  {
    hide Fold;
    if Fold(messages).halted {
      var i := HaltFound(messages);
      assert LastHalt(messages, i);
    }
    if i :| 0 <= i < |messages| && IsEvent(messages[i], "risk_halt") { HaltsKept(messages, i); }
  }

  /** The message carries an account: it is an account event or a snapshot. */
  ghost predicate CarriesAccount(raw: Raw) { IsSnapshot(raw) || IsEvent(raw, "account_state") }

  /** The account and the deployment status are those of the last message that carried one. */
  lemma {:induction false} LatestExact(messages: seq<Raw>, i: nat)
    requires i < |messages|
    ensures CarriesAccount(messages[i]) && (forall j :: i < j < |messages| ==> !CarriesAccount(messages[j]))
            ==> Fold(messages).account
                == if IsSnapshot(messages[i]) then messages[i].account else Some(messages[i].update)
    ensures IsEvent(messages[i], "deployment_status")
            && (forall j :: i < j < |messages| ==> !IsEvent(messages[j], "deployment_status"))
            ==> Fold(messages).deploymentStatus == Some(messages[i].status)
  {
    hide Read;
    var init, last := messages[..|messages| - 1], messages[|messages| - 1];
    ReadFields(last);
    if i < |init| {
      assert init[i] == messages[i] && forall j :: i < j < |init| ==> init[j] == messages[j];
      LatestExact(init, i);
    }
  }
}
