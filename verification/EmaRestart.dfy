/**
 Save, restart and load in strategies/example/ema_cross.py. Indicator values are exact reals. Bars update
 both indicators before the strategy sees them; what the portfolio holds is an input of each bar.
 */
module EmaRestart {
  import opened Wrappers

  // ---- The indicator

  /** An exponential moving average; `count` inputs have been seen. */
  datatype Ema = Ema(period: nat, value: real, count: nat)

  function Cold(period: nat): Ema { Ema(period, 0.0, 0) }

  predicate Initialized(e: Ema) { e.count >= e.period }

  function Alpha(period: nat): real { 2.0 / (period as real + 1.0) }

  /** The first input is taken over; later ones are averaged in. */
  function Update(e: Ema, x: real): Ema {
    e.(value := if e.count == 0 then x else Alpha(e.period) * x + (1.0 - Alpha(e.period)) * e.value,
       count := e.count + 1)
  }

  /** The first reading is the first input; then the new input has weight 2 and the old reading weight period - 1. */
  lemma UpdateExact(e: Ema, x: real)
    ensures Update(e, x).period == e.period && Update(e, x).count == e.count + 1
    ensures e.count == 0 ==> Update(e, x).value == x
    ensures e.count > 0 ==>
              Update(e, x).value * (e.period as real + 1.0) == 2.0 * x + (e.period as real - 1.0) * e.value
    ensures Initialized(e) <==> e.count >= e.period
  {
    var n, a := e.period as real, Alpha(e.period);
    assert a * (n + 1.0) == 2.0;
    assert (a * x + (1.0 - a) * e.value) * (n + 1.0) == a * (n + 1.0) * x + (n + 1.0 - a * (n + 1.0)) * e.value;
  }

  function Replayed(e: Ema, x: real, n: nat): Ema {
    if n == 0 then e else Update(Replayed(e, x, n - 1), x)
  }

  predicate EmaOk(e: Ema) { e.count == 0 ==> e.value == 0.0 }

  lemma Stable(alpha: real, x: real)
    ensures alpha * x + (1.0 - alpha) * x == x
  {
  }

  /** Replaying a reading as often as it has inputs restores the indicator from cold. */
  lemma {:induction false} ReplayRestores(e: Ema, n: nat)
    requires EmaOk(e)
    ensures Replayed(Cold(e.period), e.value, n) == if n == 0 then Cold(e.period) else e.(count := n)
  {
    if n > 0 {
      ReplayRestores(e, n - 1);
      Stable(Alpha(e.period), e.value);
    }
  }

  // ---- The strategy's state

  datatype Bar = Bar(ts: Option<int>, close: real)

  datatype Position = Flat | Long | Short

  datatype Action = Hold | Buy | CloseAndBuy | CloseLong

  datatype State = State(fast: Ema, slow: Ema, last: Option<int>)

  predicate StateOk(s: State) { EmaOk(s.fast) && EmaOk(s.slow) }

  function ColdState(fastPeriod: nat, slowPeriod: nat): State { State(Cold(fastPeriod), Cold(slowPeriod), None) }

  /** What the readings call for. */
  function Signal(fast: Ema, slow: Ema, position: Position): Action {
    if fast.value > slow.value then
      if position == Flat then Buy else if position == Short then CloseAndBuy else Hold
    else if fast.value < slow.value && position == Long then CloseLong
    else Hold
  }

  predicate Seen(last: Option<int>, ts: Option<int>) { ts.Some? && last.Some? && ts.value <= last.value }

  /** The action on a bar: none while an indicator warms up or for a bar that is not newer than the last decision. */
  function ActionOn(s: State, bar: Bar, position: Position): Action {
    var fast, slow := Update(s.fast, bar.close), Update(s.slow, bar.close);
    if !Initialized(fast) || !Initialized(slow) || Seen(s.last, bar.ts) then Hold else Signal(fast, slow, position)
  }

  function After(s: State, bar: Bar, position: Position): State {
    State(Update(s.fast, bar.close), Update(s.slow, bar.close),
          if ActionOn(s, bar, position) != Hold && bar.ts.Some? then bar.ts else s.last)
  }

  /**
   When a bar is acted on, and how: both indicators have as many inputs as their period, a stamped bar is
   newer than the last decision, and the readings and the position are one of three combinations.
   */
  lemma ActionExact(s: State, bar: Bar, position: Position)
    ensures var fast, slow, action := Update(s.fast, bar.close), Update(s.slow, bar.close), ActionOn(s, bar, position);
            var free := && fast.count >= fast.period && slow.count >= slow.period
                        && (bar.ts == None || s.last == None || bar.ts.value > s.last.value);
            && (action == Buy <==> free && fast.value > slow.value && position == Flat)
            && (action == CloseAndBuy <==> free && fast.value > slow.value && position == Short)
            && (action == CloseLong <==> free && fast.value < slow.value && position == Long)
  {
  }

  // ---- The saved form

  /** The text of a saved entry, by what it parses as. */
  datatype Text = RealText(x: real) | IntText(n: int) | Other(text: string)

  function ParseReal(t: Text): Option<real> {
    match t case RealText(x) => Some(x) case IntText(n) => Some(n as real) case Other(_) => None
  }

  function ParseInt(t: Text): Option<int> { match t case IntText(n) => Some(n) case _ => None }

  function SaveOf(s: State): map<string, Text> {
    map["version" := IntText(3),
        "fast_ema_value" := RealText(s.fast.value),
        "slow_ema_value" := RealText(s.slow.value),
        "fast_ema_count" := IntText(s.fast.count),
        "slow_ema_count" := IntText(s.slow.count),
        "last_decision_bar_ts" := IntText(if s.last.Some? then s.last.value else 0)]
  }

  function Entry(state: map<string, Text>, key: string): Text { if key in state then state[key] else Other("") }

  /** The saved form is of this version and complete. */
  predicate Readable(state: map<string, Text>) {
    && Entry(state, "version") == IntText(3)
    && ParseReal(Entry(state, "fast_ema_value")).Some? && ParseReal(Entry(state, "slow_ema_value")).Some?
    && ParseInt(Entry(state, "fast_ema_count")).Some? && ParseInt(Entry(state, "slow_ema_count")).Some?
    && ParseInt(Entry(state, "last_decision_bar_ts")).Some?
  }

  function Times(n: int): nat { if n < 0 then 0 else n }

  /** The state after a fresh strategy loaded `state`. */
  function LoadOf(fastPeriod: nat, slowPeriod: nat, state: map<string, Text>): State {
    if !Readable(state) then ColdState(fastPeriod, slowPeriod)
    else
      var last := ParseInt(Entry(state, "last_decision_bar_ts")).value;
      State(Replayed(Cold(fastPeriod), ParseReal(Entry(state, "fast_ema_value")).value,
                     Times(ParseInt(Entry(state, "fast_ema_count")).value)),
            Replayed(Cold(slowPeriod), ParseReal(Entry(state, "slow_ema_value")).value,
                     Times(ParseInt(Entry(state, "slow_ema_count")).value)),
            if last == 0 then None else Some(last))
  }

  /** What is loaded: the saved numbers, if all entries parse and the version is 3, and else nothing. */
  lemma LoadExact(fastPeriod: nat, slowPeriod: nat, state: map<string, Text>)
    ensures var r := LoadOf(fastPeriod, slowPeriod, state);
            if && "version" in state && state["version"] == IntText(3)
               && "fast_ema_value" in state && !state["fast_ema_value"].Other?
               && "slow_ema_value" in state && !state["slow_ema_value"].Other?
               && "fast_ema_count" in state && state["fast_ema_count"].IntText?
               && "slow_ema_count" in state && state["slow_ema_count"].IntText?
               && "last_decision_bar_ts" in state && state["last_decision_bar_ts"].IntText?
            then
              && Restored(r.fast, fastPeriod, state["fast_ema_value"], state["fast_ema_count"].n)
              && Restored(r.slow, slowPeriod, state["slow_ema_value"], state["slow_ema_count"].n)
              && r.last == if state["last_decision_bar_ts"].n == 0 then None
                           else Some(state["last_decision_bar_ts"].n)
            else r == State(Ema(fastPeriod, 0.0, 0), Ema(slowPeriod, 0.0, 0), None)
  {
    hide Replayed;
    if Readable(state) {
      ReplayedFrom(fastPeriod, state["fast_ema_value"], state["fast_ema_count"].n);
      ReplayedFrom(slowPeriod, state["slow_ema_value"], state["slow_ema_count"].n);
    }
    hide Restored;
  }

  lemma ReplayedFrom(period: nat, reading: Text, count: int)
    requires ParseReal(reading).Some?
    ensures Restored(Replayed(Cold(period), ParseReal(reading).value, Times(count)), period, reading, count)
  {
    ReplayRestores(Ema(period, if count > 0 then ParseReal(reading).value else 0.0, Times(count)), Times(count));
    if count <= 0 { assert Replayed(Cold(period), ParseReal(reading).value, 0) == Cold(period); }
  }

  /** The indicator that a saved reading and a saved count stand for. */
  ghost predicate Restored(e: Ema, period: nat, reading: Text, count: int) {
    && e.period == period
    && (count <= 0 ==> e.count == 0 && e.value == 0.0)
    && (count > 0 ==>
          e.count == count && (reading == RealText(e.value) || (reading.IntText? && e.value == reading.n as real)))
  }

  /** A restart restores everything: both indicators, and the last decision unless its timestamp is 0. */
  lemma RestartExact(s: State)
    requires StateOk(s)
    ensures var r := LoadOf(s.fast.period, s.slow.period, SaveOf(s));
            r.fast == s.fast && r.slow == s.slow && (r == s <==> s.last != Some(0))
  {
    ReplayRestores(s.fast, s.fast.count);
    ReplayRestores(s.slow, s.slow.count);
  }

  class EmaCross {
    const fastPeriod: nat
    const slowPeriod: nat
    var fastEma: Ema
    var slowEma: Ema
    var lastDecision: Option<int>

    constructor (fastPeriod: nat, slowPeriod: nat)
      ensures this.fastPeriod == fastPeriod && this.slowPeriod == slowPeriod
      ensures Contents() == ColdState(fastPeriod, slowPeriod)
    {
      this.fastPeriod, this.slowPeriod := fastPeriod, slowPeriod;
      fastEma, slowEma, lastDecision := Cold(fastPeriod), Cold(slowPeriod), None;
    }

    ghost function Contents(): State
      reads this
    {
      State(fastEma, slowEma, lastDecision)
    }

    /** Updates the indicators with the bar and evaluates the crossover. */
    method OnBar(bar: Bar, position: Position) returns (action: Action)
      modifies this
      ensures action == ActionOn(old(Contents()), bar, position) && Contents() == After(old(Contents()), bar, position)
      ensures var free := && fastEma.count >= fastEma.period && slowEma.count >= slowEma.period
                          && (bar.ts == None || old(lastDecision) == None || bar.ts.value > old(lastDecision).value);
              && (action == Buy <==> free && fastEma.value > slowEma.value && position == Flat)
              && (action == CloseAndBuy <==> free && fastEma.value > slowEma.value && position == Short)
              && (action == CloseLong <==> free && fastEma.value < slowEma.value && position == Long)
      ensures lastDecision == if action == Hold || bar.ts == None then old(lastDecision) else bar.ts
    {
      fastEma, slowEma := Update(fastEma, bar.close), Update(slowEma, bar.close);
      action := Hold;
      if !Initialized(fastEma) || !Initialized(slowEma) { return; }
      if bar.ts.Some? && lastDecision.Some? && bar.ts.value <= lastDecision.value { return; }
      if fastEma.value > slowEma.value {
        if position == Flat {
          action := Buy;
        } else if position == Short {
          action := CloseAndBuy;
        }
      } else if fastEma.value < slowEma.value && position == Long {
        action := CloseLong;
      }
      if action != Hold && bar.ts.Some? { lastDecision := bar.ts; }
    }

    method OnSave() returns (state: map<string, Text>)
      ensures state == SaveOf(Contents())
    {
      state := map["version" := IntText(3),
                   "fast_ema_value" := RealText(fastEma.value),
                   "slow_ema_value" := RealText(slowEma.value),
                   "fast_ema_count" := IntText(fastEma.count),
                   "slow_ema_count" := IntText(slowEma.count),
                   "last_decision_bar_ts" := IntText(if lastDecision.Some? then lastDecision.value else 0)];
    }

    /** Loads into a fresh strategy. */
    method OnLoad(state: map<string, Text>)
      requires Contents() == ColdState(fastPeriod, slowPeriod)
      modifies this
      ensures Contents() == LoadOf(fastPeriod, slowPeriod, state)
    {
      if !Readable(state) { return; }
      var fast, slow := ParseReal(Entry(state, "fast_ema_value")).value,
                        ParseReal(Entry(state, "slow_ema_value")).value;
      var fastCount, slowCount := ParseInt(Entry(state, "fast_ema_count")).value,
                                  ParseInt(Entry(state, "slow_ema_count")).value;
      var last := ParseInt(Entry(state, "last_decision_bar_ts")).value;
      var i := 0;
      while i < fastCount
        invariant 0 <= i <= Times(fastCount) && fastEma == Replayed(Cold(fastPeriod), fast, i)
        invariant slowEma == Cold(slowPeriod)
      {
        fastEma := Update(fastEma, fast);
        i := i + 1;
      }
      i := 0;
      while i < slowCount
        invariant 0 <= i <= Times(slowCount) && slowEma == Replayed(Cold(slowPeriod), slow, i)
        invariant fastEma == Replayed(Cold(fastPeriod), fast, Times(fastCount))
      {
        slowEma := Update(slowEma, slow);
        i := i + 1;
      }
      lastDecision := if last == 0 then None else Some(last);
    }
  }

  // ---- Runs with restarts

  datatype Event = Tick(bar: Bar, position: Position) | Restart

  function Next(s: State, e: Event): State {
    match e
    case Tick(bar, position) => After(s, bar, position)
    case Restart => LoadOf(s.fast.period, s.slow.period, SaveOf(s))
  }

  function Run(s: State, events: seq<Event>): State {
    if events == [] then s else Next(Run(s, events[..|events| - 1]), events[|events| - 1])
  }

  /** The bars that were acted on, in order. */
  function Decisions(s: State, events: seq<Event>): seq<Bar> {
    if events == [] then []
    else
      var e := events[|events| - 1];
      Decisions(s, events[..|events| - 1])
      + (if e.Tick? && ActionOn(Run(s, events[..|events| - 1]), e.bar, e.position) != Hold then [e.bar] else [])
  }

  /** Plays a run against the strategy; a restart saves, builds a new strategy and loads. */
  method Play(fastPeriod: nat, slowPeriod: nat, events: seq<Event>) returns (decisions: seq<Bar>)
    ensures decisions == Decisions(ColdState(fastPeriod, slowPeriod), events)
  {
    hide *;
    var cold := ColdState(fastPeriod, slowPeriod);
    var strategy := new EmaCross(fastPeriod, slowPeriod);
    decisions := [];
    NothingRun(cold);
    ghost var s := cold;
    ColdPeriods(fastPeriod, slowPeriod);
    var i := 0;
    while i < |events|
      invariant 0 <= i <= |events| && fresh(strategy)
      invariant strategy.fastPeriod == fastPeriod && strategy.slowPeriod == slowPeriod
      invariant strategy.Contents() == s == Run(cold, events[..i]) && decisions == Decisions(cold, events[..i])
      invariant s.fast.period == fastPeriod && s.slow.period == slowPeriod
    {
      assert events[..i + 1] == events[..i] + [events[i]];
      RunSnoc(cold, events[..i], events[i]);
      NextPeriods(s, events[i]);
      NextParts(s, events[i]);
      s := Next(s, events[i]);
      match events[i] {
        case Tick(bar, position) =>
          var action := strategy.OnBar(bar, position);
          if action != Hold { decisions := decisions + [bar]; }
        case Restart =>
          var state := strategy.OnSave();
          strategy := new EmaCross(fastPeriod, slowPeriod);
          strategy.OnLoad(state);
      }
      i := i + 1;
    }
    assert events[..|events|] == events;
  }

  lemma ColdPeriods(fastPeriod: nat, slowPeriod: nat)
    ensures ColdState(fastPeriod, slowPeriod).fast.period == fastPeriod
    ensures ColdState(fastPeriod, slowPeriod).slow.period == slowPeriod
  {
  }

  lemma NextParts(s: State, e: Event)
    ensures match e
            case Tick(bar, position) =>
              && Next(s, e) == After(s, bar, position)
              && Added(s, e) == if ActionOn(s, bar, position) != Hold then [bar] else []
            case Restart => Next(s, e) == LoadOf(s.fast.period, s.slow.period, SaveOf(s)) && Added(s, e) == []
  {
    hide After;
    hide ActionOn;
    hide LoadOf;
    hide SaveOf;
  }

  lemma NextPeriods(s: State, e: Event)
    ensures Next(s, e).fast.period == s.fast.period && Next(s, e).slow.period == s.slow.period
  {
    hide Alpha;
    hide ActionOn;
    if e.Restart? { PeriodsKept(s); }
  }

  lemma {:induction false} ReplayKeepsPeriod(e: Ema, x: real, n: nat)
    ensures Replayed(e, x, n).period == e.period && Replayed(e, x, n).count == e.count + n
  {
    if n > 0 { ReplayKeepsPeriod(e, x, n - 1); }
  }

  lemma PeriodsKept(s: State)
    ensures var r := LoadOf(s.fast.period, s.slow.period, SaveOf(s));
            r.fast.period == s.fast.period && r.slow.period == s.slow.period
  {
    ReplayKeepsPeriod(Cold(s.fast.period), s.fast.value, s.fast.count);
    ReplayKeepsPeriod(Cold(s.slow.period), s.slow.value, s.slow.count);
  }

  /** No bar that was acted on is stamped 0. */
  ghost predicate NoneAtZero(decisions: seq<Bar>) {
    forall i :: 0 <= i < |decisions| ==> decisions[i].ts != Some(0)
  }

  /** The timestamps of the bars that carry one. */
  function Stamps(bars: seq<Bar>): seq<int> {
    if bars == [] then []
    else Stamps(bars[..|bars| - 1]) + if bars[|bars| - 1].ts.Some? then [bars[|bars| - 1].ts.value] else []
  }

  ghost predicate Increasing(stamps: seq<int>) {
    forall i, j :: 0 <= i < j < |stamps| ==> stamps[i] < stamps[j]
  }

  /** The idempotency key is the timestamp of the last decision on a stamped bar. */
  ghost predicate Tracks(s: State, decisions: seq<Bar>) {
    StateOk(s) && s.last == if Stamps(decisions) == [] then None else Some(Stamps(decisions)[|Stamps(decisions)| - 1])
  }

  lemma StampsSnoc(bars: seq<Bar>, bar: Bar)
    ensures Stamps(bars + [bar]) == Stamps(bars) + if bar.ts.Some? then [bar.ts.value] else []
  {
    assert (bars + [bar])[..|bars|] == bars;
  }

  lemma {:induction false} ZeroStamped(bars: seq<Bar>)
    ensures NoneAtZero(bars) <==> 0 !in Stamps(bars)
  {
    if bars != [] {
      ZeroStamped(bars[..|bars| - 1]);
      assert bars == bars[..|bars| - 1] + [bars[|bars| - 1]];
    }
  }

  lemma NotAtZero(s: State, decisions: seq<Bar>)
    requires Tracks(s, decisions) && NoneAtZero(decisions)
    ensures s.last != Some(0)
  {
    ZeroStamped(decisions);
  }

  /** What one event adds to the decisions. */
  function Added(s: State, e: Event): seq<Bar> {
    if e.Tick? && ActionOn(s, e.bar, e.position) != Hold then [e.bar] else []
  }

  /** A bar that is acted on is newer than the last decision and becomes it. */
  lemma TickAdvances(s: State, bar: Bar, position: Position)
    ensures StateOk(After(s, bar, position))
    ensures var acted := ActionOn(s, bar, position) != Hold && bar.ts.Some?;
            && After(s, bar, position).last == (if acted then bar.ts else s.last)
            && (acted && s.last.Some? ==> s.last.value < bar.ts.value)
  {
    hide Alpha;
    hide Signal;
  }

  lemma StepTracks(s: State, e: Event, decisions: seq<Bar>)
    requires Tracks(s, decisions) && Increasing(Stamps(decisions)) && (e.Restart? ==> s.last != Some(0))
    ensures Tracks(Next(s, e), decisions + Added(s, e)) && Increasing(Stamps(decisions + Added(s, e)))
  {
    hide After;
    hide ActionOn;
    hide Stamps;
    hide StateOk;
    assert decisions + [] == decisions;
    match e
    case Tick(bar, position) =>
      TickAdvances(s, bar, position);
      StampsSnoc(decisions, bar);
    case Restart => RestartExact(s);
  }

  lemma RunSnoc(s: State, events: seq<Event>, e: Event)
    ensures Run(s, events + [e]) == Next(Run(s, events), e)
    ensures Decisions(s, events + [e]) == Decisions(s, events) + Added(Run(s, events), e)
  {
    hide Next;
    hide ActionOn;
    assert (events + [e])[..|events|] == events;
  }

  /** The timestamp of the last decision on a stamped bar. */
  function LastStamp(decisions: seq<Bar>): Option<int> {
    var stamps := Stamps(decisions);
    if stamps == [] then None else Some(stamps[|stamps| - 1])
  }

  /** No restart finds the last decision stamped 0. */
  ghost predicate RestartsSafe(s: State, events: seq<Event>) {
    forall i :: 0 <= i < |events| && events[i].Restart? ==> LastStamp(Decisions(s, events[..i])) != Some(0)
  }

  /**
   However often the strategy restarts and bars are delivered again, the timestamps of its decisions
   strictly increase, provided that no restart follows a decision at 0 before another decision is made.
   */
  lemma {:induction false} DecisionsIncrease(fastPeriod: nat, slowPeriod: nat, events: seq<Event>)
    requires RestartsSafe(ColdState(fastPeriod, slowPeriod), events)
    ensures var cold := ColdState(fastPeriod, slowPeriod);
            && Increasing(Stamps(Decisions(cold, events)))
            && Tracks(Run(cold, events), Decisions(cold, events))
  {
    hide Next;
    hide Added;
    hide StateOk;
    hide Run;
    hide Decisions;
    var cold := ColdState(fastPeriod, slowPeriod);
    NothingRun(cold);
    ColdOk(fastPeriod, slowPeriod);
    if events != [] {
      var init, e := events[..|events| - 1], events[|events| - 1];
      assert events == init + [e];
      RunSnoc(cold, init, e);
      SafePrefix(cold, events);
      DecisionsIncrease(fastPeriod, slowPeriod, init);
      StepTracks(Run(cold, init), e, Decisions(cold, init));
    }
  }

  lemma ColdOk(fastPeriod: nat, slowPeriod: nat)
    ensures StateOk(ColdState(fastPeriod, slowPeriod)) && ColdState(fastPeriod, slowPeriod).last == None
  {
  }

  lemma SafePrefix(s: State, events: seq<Event>)
    requires RestartsSafe(s, events) && events != []
    ensures RestartsSafe(s, events[..|events| - 1])
    ensures events[|events| - 1].Restart? ==> LastStamp(Decisions(s, events[..|events| - 1])) != Some(0)
  {
    hide Decisions;
    hide LastStamp;
    var init := events[..|events| - 1];
    forall i | 0 <= i < |init| && init[i].Restart? ensures LastStamp(Decisions(s, init[..i])) != Some(0) {
      assert init[..i] == events[..i];
    }
  }

  /** In particular, it suffices that no decision at all is at 0. */
  lemma NoneAtZeroSafe(s: State, events: seq<Event>)
    requires NoneAtZero(Decisions(s, events))
    ensures RestartsSafe(s, events)
  {
    hide Decisions;
    hide NoneAtZero;
    forall i | 0 <= i < |events| && events[i].Restart? ensures LastStamp(Decisions(s, events[..i])) != Some(0) {
      DecisionsPrefix(s, events, i);
      ZeroStamped(Decisions(s, events[..i]));
    }
  }

  lemma NoneAtZeroPrefix(a: seq<Bar>, b: seq<Bar>)
    ensures NoneAtZero(a + b) <==> NoneAtZero(a) && NoneAtZero(b)
  {
    assert forall i :: 0 <= i < |a| ==> (a + b)[i] == a[i];
    assert forall i :: 0 <= i < |b| ==> (a + b)[|a| + i] == b[i];
  }

  /** Only bars are acted on; so if no bar is stamped 0, no decision is. */
  lemma {:induction false} DecisionsAreBars(s: State, events: seq<Event>)
    requires forall i :: 0 <= i < |events| && events[i].Tick? ==> events[i].bar.ts != Some(0)
    ensures NoneAtZero(Decisions(s, events))
  {
    hide ActionOn;
    hide Next;
    if events != [] { DecisionsAreBars(s, events[..|events| - 1]); }
  }

  function WithoutRestarts(events: seq<Event>): seq<Event> {
    if events == [] then []
    else WithoutRestarts(events[..|events| - 1])
         + (if events[|events| - 1].Restart? then [] else [events[|events| - 1]])
  }

  /** The run reaches the same readings and makes the same decisions as it would without its restarts. */
  ghost predicate Invisible(fastPeriod: nat, slowPeriod: nat, events: seq<Event>) {
    var cold := ColdState(fastPeriod, slowPeriod);
    && Run(cold, events) == Run(cold, WithoutRestarts(events))
    && Decisions(cold, events) == Decisions(cold, WithoutRestarts(events))
  }

  lemma WithoutSnoc(events: seq<Event>, e: Event)
    ensures WithoutRestarts(events + [e]) == WithoutRestarts(events) + if e.Restart? then [] else [e]
  {
    assert (events + [e])[..|events|] == events;
  }

  /** Restarts are invisible if no decision of the run without them is at 0. */
  lemma {:induction false} RestartsInvisible(fastPeriod: nat, slowPeriod: nat, events: seq<Event>)
    requires NoneAtZero(Decisions(ColdState(fastPeriod, slowPeriod), WithoutRestarts(events)))
    ensures Invisible(fastPeriod, slowPeriod, events)
  {
    hide Run;
    hide Decisions;
    hide After;
    hide Added;
    hide LoadOf;
    hide SaveOf;
    hide ColdState;
    hide NoneAtZero;
    hide WithoutRestarts;
    NothingWithout();
    if events != [] {
      var cold := ColdState(fastPeriod, slowPeriod);
      var init, e := events[..|events| - 1], events[|events| - 1];
      assert events == init + [e];
      WithoutSnoc(init, e);
      RunSnoc(cold, init, e);
      if e.Restart? {
        assert WithoutRestarts(init) + [] == WithoutRestarts(init);
        RestartsInvisible(fastPeriod, slowPeriod, init);
        NoneAtZeroSafe(ColdState(fastPeriod, slowPeriod), init);
        DecisionsIncrease(fastPeriod, slowPeriod, init);
        NotAtZero(Run(cold, init), Decisions(cold, init));
        RestartExact(Run(cold, init));
        NothingAdded(Run(cold, init), Decisions(cold, init));
      } else {
        RunSnoc(cold, WithoutRestarts(init), e);
        NoneAtZeroPrefix(Decisions(cold, WithoutRestarts(init)), Added(Run(cold, WithoutRestarts(init)), e));
        RestartsInvisible(fastPeriod, slowPeriod, init);
      }
    }
  }

  lemma NothingWithout()
    ensures WithoutRestarts([]) == []
  {
  }

  lemma NothingAdded(s: State, decisions: seq<Bar>)
    ensures decisions + Added(s, Restart) == decisions
  {
  }

  /** A decision at 0 is forgotten by a restart that directly follows it. */
  lemma ZeroForgotten(fastPeriod: nat, slowPeriod: nat, ticks: seq<Event>)
    requires WithoutRestarts(ticks) == ticks && StateOk(Run(ColdState(fastPeriod, slowPeriod), ticks))
    requires Run(ColdState(fastPeriod, slowPeriod), ticks).last == Some(0)
    ensures WithoutRestarts(ticks + [Restart]) == ticks && !Invisible(fastPeriod, slowPeriod, ticks + [Restart])
  {
    hide Run;
    hide LoadOf;
    hide SaveOf;
    hide Decisions;
    hide WithoutRestarts;
    WithoutSnoc(ticks, Restart);
    assert ticks + [] == ticks;
    RunSnoc(ColdState(fastPeriod, slowPeriod), ticks, Restart);
    RestartExact(Run(ColdState(fastPeriod, slowPeriod), ticks));
  }

  predicate Warm(s: State) { Initialized(s.fast) && Initialized(s.slow) }

  lemma ActedWarm(s: State, bar: Bar, position: Position)
    requires ActionOn(s, bar, position) != Hold
    ensures Warm(After(s, bar, position))
    ensures After(s, bar, position).fast.value != After(s, bar, position).slow.value
  {
    hide Alpha;
  }

  /** The first decision at 0 leaves the idempotency key at 0, with both indicators warm. */
  lemma {:induction false} ZeroReached(fastPeriod: nat, slowPeriod: nat, ticks: seq<Event>) returns (n: nat)
    requires !NoneAtZero(Decisions(ColdState(fastPeriod, slowPeriod), ticks))
    ensures n <= |ticks|
    ensures var s := Run(ColdState(fastPeriod, slowPeriod), ticks[..n]);
            StateOk(s) && s.last == Some(0) && Warm(s) && s.fast.value != s.slow.value
    ensures 0 in Stamps(Decisions(ColdState(fastPeriod, slowPeriod), ticks[..n]))
  {
    hide ActionOn;
    hide Run;
    hide Decisions;
    hide LoadOf;
    hide SaveOf;
    NothingRun(ColdState(fastPeriod, slowPeriod));
    var cold, init, e := ColdState(fastPeriod, slowPeriod), ticks[..|ticks| - 1], ticks[|ticks| - 1];
    assert ticks == init + [e];
    RunSnoc(cold, init, e);
    NoneAtZeroPrefix(Decisions(cold, init), Added(Run(cold, init), e));
    if NoneAtZero(Decisions(cold, init)) {
      NoneAtZeroSafe(ColdState(fastPeriod, slowPeriod), init);
      DecisionsIncrease(fastPeriod, slowPeriod, init);
      n := |ticks|;
      assert ticks[..n] == ticks;
      ZeroAdded(Run(cold, init), e);
      ActedWarm(Run(cold, init), e.bar, e.position);
      ZeroStamped(Decisions(cold, ticks));
    } else {
      n := ZeroReached(fastPeriod, slowPeriod, init);
      assert ticks[..n] == init[..n];
    }
  }

  lemma ZeroAdded(s: State, e: Event)
    requires !NoneAtZero(Added(s, e))
    ensures e.Tick? && ActionOn(s, e.bar, e.position) != Hold && e.bar.ts == Some(0)
  {
    hide ActionOn;
  }

  lemma {:induction false} TicksOnly(ticks: seq<Event>, n: nat)
    requires n <= |ticks| && forall i :: 0 <= i < |ticks| ==> ticks[i].Tick?
    ensures WithoutRestarts(ticks[..n]) == ticks[..n]
  {
    if n > 0 {
      TicksOnly(ticks, n - 1);
      assert ticks[..n] == ticks[..n - 1] + [ticks[n - 1]];
      WithoutSnoc(ticks[..n - 1], ticks[n - 1]);
    }
  }

  /**
   For a given sequence of bars, restarts are invisible at every point, wherever they are placed, exactly
   if no decision that the strategy makes on those bars without restarts is at timestamp 0.
   */
  lemma RestartsInvisibleExactly(fastPeriod: nat, slowPeriod: nat, ticks: seq<Event>)
    requires forall i :: 0 <= i < |ticks| ==> ticks[i].Tick?
    ensures NoneAtZero(Decisions(ColdState(fastPeriod, slowPeriod), ticks))
            <==> forall events :: WithoutRestarts(events) <= ticks ==> Invisible(fastPeriod, slowPeriod, events)
  {
    hide Run;
    hide Decisions;
    hide Invisible;
    hide WithoutRestarts;
    hide NoneAtZero;
    var cold := ColdState(fastPeriod, slowPeriod);
    if NoneAtZero(Decisions(cold, ticks)) {
      forall events | WithoutRestarts(events) <= ticks ensures Invisible(fastPeriod, slowPeriod, events) {
        DecisionsPrefix(cold, ticks, |WithoutRestarts(events)|);
        assert ticks[..|WithoutRestarts(events)|] == WithoutRestarts(events);
        RestartsInvisible(fastPeriod, slowPeriod, events);
      }
    } else {
      var n := ZeroReached(fastPeriod, slowPeriod, ticks);
      TicksOnly(ticks, n);
      ZeroForgotten(fastPeriod, slowPeriod, ticks[..n]);
      assert WithoutRestarts(ticks[..n] + [Restart]) <= ticks;
    }
  }

  lemma {:induction false} DecisionsPrefix(s: State, events: seq<Event>, n: nat)
    requires n <= |events| && NoneAtZero(Decisions(s, events))
    ensures NoneAtZero(Decisions(s, events[..n]))
    decreases |events|
  {
    hide Run;
    hide Decisions;
    hide Added;
    if n < |events| {
      var init, e := events[..|events| - 1], events[|events| - 1];
      assert events == init + [e] && init[..n] == events[..n];
      RunSnoc(s, init, e);
      NoneAtZeroPrefix(Decisions(s, init), Added(Run(s, init), e));
      DecisionsPrefix(s, init, n);
    } else {
      assert events[..n] == events;
    }
  }

  // ---- Never acting twice

  /** No bar that is not newer than a decision already made is acted on. */
  ghost predicate NeverRepeats(fastPeriod: nat, slowPeriod: nat, events: seq<Event>) {
    forall stamp, bar: Bar, position ::
      stamp in Stamps(Decisions(ColdState(fastPeriod, slowPeriod), events)) && bar.ts.Some? && bar.ts.value <= stamp
      ==> ActionOn(Run(ColdState(fastPeriod, slowPeriod), events), bar, position) == Hold
  }

  lemma IncreasingNeverRepeats(fastPeriod: nat, slowPeriod: nat, events: seq<Event>)
    requires NoneAtZero(Decisions(ColdState(fastPeriod, slowPeriod), events))
    ensures NeverRepeats(fastPeriod, slowPeriod, events)
  {
    hide Run;
    hide Decisions;
    hide Stamps;
    hide NoneAtZero;
    hide ColdState;
    NoneAtZeroSafe(ColdState(fastPeriod, slowPeriod), events);
    DecisionsIncrease(fastPeriod, slowPeriod, events);
    var s := Run(ColdState(fastPeriod, slowPeriod), events);
    var stamps := Stamps(Decisions(ColdState(fastPeriod, slowPeriod), events));
    forall stamp, bar: Bar, position | stamp in stamps && bar.ts.Some? && bar.ts.value <= stamp
      ensures ActionOn(s, bar, position) == Hold
    {
      LastIsGreatest(stamps, stamp);
      assert Seen(s.last, bar.ts);
    }
  }

  lemma LastIsGreatest(stamps: seq<int>, stamp: int)
    requires Increasing(stamps) && stamp in stamps
    ensures stamps != [] && stamp <= stamps[|stamps| - 1]
  {
  }

  lemma AlphasDiffer(a: nat, b: nat)
    requires a != b
    ensures Alpha(a) != Alpha(b)
  {
    assert Alpha(a) * (a as real + 1.0) == 2.0 && Alpha(b) * (b as real + 1.0) == 2.0;
    assert Alpha(a) == Alpha(b) ==> Alpha(a) * (a as real - b as real) == 0.0;
  }

  /** Two warm indicators of different periods can be driven apart by one bar. */
  lemma DrivenApart(s: State) returns (close: real)
    requires Warm(s) && s.fast.period != s.slow.period && s.fast.count > 0 && s.slow.count > 0
    ensures Update(s.fast, close).value != Update(s.slow, close).value
  {
    AlphasDiffer(s.fast.period, s.slow.period);
    close := if Update(s.fast, 0.0).value != Update(s.slow, 0.0).value then 0.0 else 1.0;
  }

  /** After a restart nothing keeps a warm strategy from acting on a bar at 0. */
  lemma ActsAtZero(s: State) returns (bar: Bar, position: Position)
    requires Warm(s) && s.fast.period != s.slow.period && s.fast.count > 0 && s.slow.count > 0 && s.last == None
    ensures bar.ts == Some(0) && ActionOn(s, bar, position) != Hold
  {
    var close := DrivenApart(s);
    hide Alpha;
    bar := Bar(Some(0), close);
    position := if Update(s.fast, close).value > Update(s.slow, close).value then Flat else Long;
  }

  /** Indicators of one period always agree, so the strategy never acts. */
  lemma {:induction false} OnePeriodAgrees(period: nat, ticks: seq<Event>)
    requires forall i :: 0 <= i < |ticks| ==> ticks[i].Tick?
    ensures Run(ColdState(period, period), ticks).fast == Run(ColdState(period, period), ticks).slow
  {
    hide Alpha;
    hide ActionOn;
    if ticks != [] { OnePeriodAgrees(period, ticks[..|ticks| - 1]); }
  }

  lemma {:induction false} RunCounts(fastPeriod: nat, slowPeriod: nat, ticks: seq<Event>)
    requires forall i :: 0 <= i < |ticks| ==> ticks[i].Tick?
    ensures var s := Run(ColdState(fastPeriod, slowPeriod), ticks);
            && s.fast.period == fastPeriod && s.slow.period == slowPeriod
            && s.fast.count == |ticks| && s.slow.count == |ticks|
  {
    hide Alpha;
    hide ActionOn;
    if ticks != [] { RunCounts(fastPeriod, slowPeriod, ticks[..|ticks| - 1]); }
  }

  lemma ZeroRepeated(fastPeriod: nat, slowPeriod: nat, ticks: seq<Event>)
    requires forall i :: 0 <= i < |ticks| ==> ticks[i].Tick?
    requires var s := Run(ColdState(fastPeriod, slowPeriod), ticks);
             StateOk(s) && s.last == Some(0) && Warm(s) && s.fast.value != s.slow.value
    requires 0 in Stamps(Decisions(ColdState(fastPeriod, slowPeriod), ticks))
    ensures !NeverRepeats(fastPeriod, slowPeriod, ticks + [Restart])
  {
    hide Run;
    hide Decisions;
    hide Stamps;
    hide ActionOn;
    hide LoadOf;
    hide SaveOf;
    hide Warm;
    var cold := ColdState(fastPeriod, slowPeriod);
    var s := Run(cold, ticks);
    RunCounts(fastPeriod, slowPeriod, ticks);
    if fastPeriod == slowPeriod { OnePeriodAgrees(fastPeriod, ticks); }
    NothingRun(cold);
    assert ticks != [];
    RunSnoc(cold, ticks, Restart);
    RestartExact(s);
    LoadedLast(s);
    NothingAdded(s, Decisions(cold, ticks));
    var r := Run(cold, ticks + [Restart]);
    assert r.fast == s.fast && r.slow == s.slow;
    SameWarm(s, r);
    var bar, position := ActsAtZero(r);
    assert 0 in Stamps(Decisions(cold, ticks + [Restart]));
    assert ActionOn(r, bar, position) != Hold;
  }

  lemma SameWarm(s: State, r: State)
    requires r.fast == s.fast && r.slow == s.slow && Warm(s)
    ensures Warm(r)
  {
  }

  /**
   For a given sequence of bars, and restarts placed anywhere in it: the strategy never acts on a bar that is
   not newer than a decision it has made, exactly if no decision on those bars is at timestamp 0.
   */
  lemma NeverRepeatsExactly(fastPeriod: nat, slowPeriod: nat, ticks: seq<Event>)
    requires forall i :: 0 <= i < |ticks| ==> ticks[i].Tick?
    ensures NoneAtZero(Decisions(ColdState(fastPeriod, slowPeriod), ticks))
            <==> forall events :: WithoutRestarts(events) <= ticks ==> NeverRepeats(fastPeriod, slowPeriod, events)
  {
    hide Run;
    hide Decisions;
    hide NeverRepeats;
    hide WithoutRestarts;
    hide NoneAtZero;
    hide Warm;
    hide StateOk;
    hide Stamps;
    var cold := ColdState(fastPeriod, slowPeriod);
    if NoneAtZero(Decisions(cold, ticks)) {
      forall events | WithoutRestarts(events) <= ticks ensures NeverRepeats(fastPeriod, slowPeriod, events) {
        DecisionsPrefix(cold, ticks, |WithoutRestarts(events)|);
        assert ticks[..|WithoutRestarts(events)|] == WithoutRestarts(events);
        RestartsInvisible(fastPeriod, slowPeriod, events);
        IncreasingNeverRepeats(fastPeriod, slowPeriod, events);
      }
    } else {
      var n := ZeroReached(fastPeriod, slowPeriod, ticks);
      TicksOnly(ticks, n);
      ZeroRepeated(fastPeriod, slowPeriod, ticks[..n]);
      WithoutSnoc(ticks[..n], Restart);
      assert ticks[..n] + [] == ticks[..n];
      assert WithoutRestarts(ticks[..n] + [Restart]) <= ticks;
    }
  }

  lemma ZeroSteps()
    ensures After(ColdState(1, 2), Bar(Some(-1), 1.0), Flat) == State(Ema(1, 1.0, 1), Ema(2, 1.0, 1), None)
    ensures ActionOn(ColdState(1, 2), Bar(Some(-1), 1.0), Flat) == Hold
    ensures var s := State(Ema(1, 1.0, 1), Ema(2, 1.0, 1), None);
            && ActionOn(s, Bar(Some(0), 4.0), Flat) == Buy
            && After(s, Bar(Some(0), 4.0), Flat) == State(Ema(1, 4.0, 2), Ema(2, 3.0, 2), Some(0))
    ensures ActionOn(State(Ema(1, 4.0, 2), Ema(2, 3.0, 2), None), Bar(Some(0), 4.0), Flat) == Buy
  {
    assert Alpha(1) == 1.0 && Alpha(2) == 2.0 / 3.0;
  }

  /** The timestamp 0 is saved as no decision at all, so a bar at 0 can be acted on twice. */
  lemma ZeroRepeats()
    ensures var b := Bar(Some(0), 4.0);
            Decisions(ColdState(1, 2), [Tick(Bar(Some(-1), 1.0), Flat), Tick(b, Flat), Restart, Tick(b, Flat)])
              == [b, b]
  {
    hide After;
    hide ActionOn;
    hide LoadOf;
    hide SaveOf;
    hide Run;
    hide Decisions;
    var b, first := Bar(Some(0), 4.0), Tick(Bar(Some(-1), 1.0), Flat);
    var cold, two := ColdState(1, 2), State(Ema(1, 4.0, 2), Ema(2, 3.0, 2), Some(0));
    ZeroSteps();
    NothingRun(cold);
    RunSnoc(cold, [], first);
    RunSnoc(cold, [first], Tick(b, Flat));
    RunSnoc(cold, [first, Tick(b, Flat)], Restart);
    RestartExact(two);
    LoadedLast(two);
    RunSnoc(cold, [first, Tick(b, Flat), Restart], Tick(b, Flat));
    assert [] + [first] == [first] && [first] + [Tick(b, Flat)] == [first, Tick(b, Flat)];
    assert [first, Tick(b, Flat)] + [Restart] == [first, Tick(b, Flat), Restart];
    assert [first, Tick(b, Flat), Restart] + [Tick(b, Flat)] == [first, Tick(b, Flat), Restart, Tick(b, Flat)];
  }

  lemma NothingRun(s: State)
    ensures Run(s, []) == s && Decisions(s, []) == []
  {
  }

  lemma LoadedLast(s: State)
    ensures LoadOf(s.fast.period, s.slow.period, SaveOf(s)).last == if s.last == Some(0) then None else s.last
  {
    hide Replayed;
  }
}
