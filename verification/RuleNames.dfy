/**
 Names and ownership of the temporary SSH rules (scripts/nsg_rule_lifecycle.py):
 the printed identity of a rule, the parser that reads it back, and the proof of
 ownership that inspects every field of a rule.
 */
module RuleNames {
  import opened GitHub
  import opened Wrappers
  import Decimal

  datatype Phase = Deploy | Preflight | Smoke

  /** Who a rule belongs to: one attempt of one workflow run. */
  datatype Owner = Owner(phase: Phase, run: int, attempt: int)

  /** One rule as listed by Azure; `extra` holds the keys that are only compared. */
  datatype Rule = Rule(
    name: string, description: Json, priority: Json, direction: Json, access: Json, protocol: Json,
    sourceGroups: Json, destinationGroups: Json,
    sourcePort: Json, sourcePorts: Json,
    destinationPort: Json, destinationPorts: Json,
    destinationAddress: Json, destinationAddresses: Json,
    sourceAddress: Json, sourceAddresses: Json,
    extra: Json)

  datatype Identity = Identity(name: string, description: string, priority: int)

  function Priority(phase: Phase): int {
    match phase case Deploy => 200 case Preflight => 201 case Smoke => 202
  }

  function NamePrefix(phase: Phase): string {
    match phase case Deploy => "" case Preflight => "preflight-" case Smoke => "smoke-"
  }

  function Workflow(phase: Phase): string {
    if phase.Smoke? then "smoke.yml" else "deploy.yml"
  }

  function PhaseText(phase: Phase): string {
    match phase case Deploy => "deploy" case Preflight => "preflight" case Smoke => "smoke"
  }

  const TRANSIENT := "gha-transient-"

  function Numbers(run: nat, attempt: nat): string {
    Decimal.Print(run) + "-" + Decimal.Print(attempt)
  }

  function PrintName(phase: Phase, run: nat, attempt: nat): string {
    TRANSIENT + (NamePrefix(phase) + Numbers(run, attempt))
  }

  function Description(repo: string, phase: Phase, run: nat, attempt: nat): string {
    "msai-ssh:v1;repo=" + repo + ";workflow=" + Workflow(phase) + ";run=" + Decimal.Print(run)
    + ";attempt=" + Decimal.Print(attempt) + ";phase=" + PhaseText(phase)
  }

  function LegacyDescription(phase: Phase, run: nat, attempt: nat): string {
    var source := match phase
      case Deploy => "GHA"
      case Preflight => "GHA deploy.yml preflight"
      case Smoke => "GHA smoke.yml";
    "Transient SSH from " + source + ". run_id=" + Decimal.Print(run) + " attempt=" + Decimal.Print(attempt)
    + ". See docs/decisions/deploy-ssh-jit.md"
  }

  /** The name, description and priority of an attempt's rule, or a refusal. */
  function IdentityOf(repo: string, o: Owner): Result<Identity> {
    if !RepositoryName(repo) then Refused("repository must be OWNER/REPO")
    else if o.run <= 0 || o.attempt <= 0 then Refused("invalid rule phase/run/attempt")
    else
      var description := Description(repo, o.phase, o.run, o.attempt);
      if |description| > 140 then Refused("ownership description exceeds Azure's 140-character limit")
      else Success(Identity(PrintName(o.phase, o.run, o.attempt), description, Priority(o.phase)))
  }

  /** What follows `prefix` in `s`, if `s` starts with it. */
  function Strip(s: string, prefix: string): Option<string> {
    if |prefix| <= |s| && s[..|prefix|] == prefix then Some(s[|prefix|..]) else None
  }

  /** Position of the first dash, or the length when there is none. */
  function FirstDash(s: string): (k: nat)
    ensures k <= |s| && (forall i :: 0 <= i < k ==> s[i] != '-') && (k < |s| ==> s[k] == '-')
  {
    if s == "" || s[0] == '-' then 0 else 1 + FirstDash(s[1..])
  }

  /** The numeric tail `RUN-ATTEMPT` of a name. */
  function ParseNumbers(phase: Phase, s: string): Option<Owner> {
    var k := FirstDash(s);
    if k == |s| then None
    else
      match (Decimal.ParsePositive(s[..k]), Decimal.ParsePositive(s[k + 1..]))
      case (Some(run), Some(attempt)) => Some(Owner(phase, run, attempt))
      case _ => None
  }

  /** The optional phase prefix, then the two numerals. */
  function ParsePhase(s: string): Option<Owner> {
    match Strip(s, NamePrefix(Preflight))
    case Some(tail) => ParseNumbers(Preflight, tail)
    case None =>
      match Strip(s, NamePrefix(Smoke))
      case Some(tail) => ParseNumbers(Smoke, tail)
      case None => ParseNumbers(Deploy, s)
  }

  /** The full match of a rule name: fixed prefix, optional phase, two positive numerals. */
  function ParseName(s: string): Option<Owner> {
    match Strip(s, TRANSIENT)
    case None => None
    case Some(rest) => ParsePhase(rest)
  }

  /** The producer's attempt in a name of the given phase and run. */
  function ProducerAttempt(phase: Phase, run: nat, s: string): Option<nat> {
    match Strip(s, TRANSIENT + NamePrefix(phase) + Decimal.Print(run) + "-")
    case None => None
    case Some(tail) => Decimal.ParsePositive(tail)
  }

  // ---- Addresses

  function SplitDots(s: string): seq<string> {
    if s == "" then [""]
    else
      var rest := SplitDots(s[1..]);
      if s[0] == '.' then [""] + rest else [[s[0]] + rest[0]] + rest[1..]
  }

  predicate Octet(s: string) {
    && 1 <= |s| <= 3 && Decimal.AllDigits(s)
    && (|s| > 1 ==> s[0] != '0') && Decimal.ValueOf(s) <= 255
  }

  predicate IPv4(s: string) {
    var parts := SplitDots(s);
    |parts| == 4 && forall i :: 0 <= i < 4 ==> Octet(parts[i])
  }

  /** A single IPv4 host in canonical CIDR form. */
  predicate HostNetwork(v: Json) {
    v.Str? && |v.s| >= 3 && v.s[|v.s| - 3..] == "/32" && IPv4(v.s[..|v.s| - 3])
  }

  // ---- Proof of ownership

  predicate Empty(v: Json) { v == Null || v == Str("") }

  /** The value of a field that Azure reports either singular or as a one-element list. */
  function Single(one: Json, many: Json): Json {
    if !Empty(one) && many != Null && many != List([]) then Null
    else if !Empty(one) then one
    else if many.List? && |many.items| == 1 then many.items[0]
    else Null
  }

  /** Everything but the name and description that ownership demands. */
  predicate OpensOnlySsh(r: Rule, phase: Phase) {
    && r.priority == Int(Priority(phase)) && r.direction == Str("Inbound")
    && r.access == Str("Allow") && r.protocol == Str("Tcp")
    && !Truthy(r.sourceGroups) && !Truthy(r.destinationGroups)
    && Single(r.sourcePort, r.sourcePorts) == Str("*")
    && Single(r.destinationPort, r.destinationPorts) == Str("22")
    && Single(r.destinationAddress, r.destinationAddresses) == Str("*")
    && HostNetwork(Single(r.sourceAddress, r.sourceAddresses))
  }

  /** The proved owner of a rule, none, or a refusal when its identity cannot be printed. */
  function OwnerOf(r: Rule, repo: string): Result<Option<Owner>> {
    match ParseName(r.name)
    case None => Success(None)
    case Some(o) =>
      match IdentityOf(repo, o)
      case Refused(reason) => Refused(reason)
      case Success(id) =>
        if (r.description == Str(id.description)
            || r.description == Str(LegacyDescription(o.phase, o.run, o.attempt)))
           && OpensOnlySsh(r, o.phase)
        then Success(Some(o)) else Success(None)
  }

  /** How Azure may report an address or port that was created with one value. */
  predicate Reports(one: Json, many: Json, value: string) {
    || (one == Str(value) && (many == Null || many == List([])))
    || (Empty(one) && many == List([Str(value)]))
  }

  /** `r` is a report of the rule that `create` asks for. */
  predicate ReportsCreated(r: Rule, id: Identity, ip: string) {
    && r.name == id.name && r.description == Str(id.description) && r.priority == Int(id.priority)
    && r.direction == Str("Inbound") && r.access == Str("Allow") && r.protocol == Str("Tcp")
    && !Truthy(r.sourceGroups) && !Truthy(r.destinationGroups)
    && Reports(r.sourcePort, r.sourcePorts, "*")
    && Reports(r.destinationPort, r.destinationPorts, "22")
    && Reports(r.destinationAddress, r.destinationAddresses, "*")
    && Reports(r.sourceAddress, r.sourceAddresses, ip + "/32")
  }

  // ---- Proofs

  lemma StripExact(s: string, prefix: string, tail: string)
    ensures Strip(s, prefix) == Some(tail) <==> s == prefix + tail
  {
    if s == prefix + tail {
      assert s[..|prefix|] == prefix && s[|prefix|..] == tail;
    }
  }

  lemma StripHead(s: string, prefix: string)
    requires s != "" && prefix != "" && s[0] != prefix[0]
    ensures Strip(s, prefix) == None
  {
    if |prefix| <= |s| {
      assert s[..|prefix|][0] == s[0];
    }
  }

  lemma FirstDashAfterDigits(d: string, t: string)
    requires Decimal.AllDigits(d)
    ensures FirstDash(d + "-" + t) == |d|
  {
    var s := d + "-" + t;
    assert s[|d|] == '-';
    forall i | 0 <= i < |d| ensures s[i] != '-' {
      assert s[i] == d[i] && Decimal.IsDigit(d[i]);
    }
  }

  lemma ParseNumbersExact(phase: Phase, s: string, o: Owner)
    ensures ParseNumbers(phase, s) == Some(o)
            <==> o.phase == phase && o.run > 0 && o.attempt > 0 && s == Numbers(o.run, o.attempt)
  {
    hide Decimal.ParsePositive;
    hide Decimal.Print;
    hide FirstDash;
    var k := FirstDash(s);
    if ParseNumbers(phase, s) == Some(o) {
      Decimal.ParsePositiveExact(s[..k], o.run);
      Decimal.ParsePositiveExact(s[k + 1..], o.attempt);
      assert s == s[..k] + "-" + s[k + 1..];
    }
    if o.run > 0 && o.attempt > 0 && s == Numbers(o.run, o.attempt) {
      FirstDashAfterDigits(Decimal.Print(o.run), Decimal.Print(o.attempt));
      assert s[..k] == Decimal.Print(o.run) && s[k + 1..] == Decimal.Print(o.attempt);
      Decimal.ParsePositiveExact(s[..k], o.run);
      Decimal.ParsePositiveExact(s[k + 1..], o.attempt);
    }
  }

  /** The phase prefixes and the numerals start with different characters. */
  lemma PhaseHeads(s: string, o: Owner)
    requires o.run > 0 && o.attempt > 0 && s == NamePrefix(o.phase) + Numbers(o.run, o.attempt)
    ensures !o.phase.Preflight? ==> Strip(s, NamePrefix(Preflight)) == None
    ensures o.phase.Deploy? ==> Strip(s, NamePrefix(Smoke)) == None
  {
    assert Decimal.IsDigit(Numbers(o.run, o.attempt)[0]);
    if o.phase.Deploy? {
      assert s == Numbers(o.run, o.attempt);
      StripHead(s, NamePrefix(Preflight));
      StripHead(s, NamePrefix(Smoke));
    } else if o.phase.Smoke? {
      assert s[0] == NamePrefix(Smoke)[0];
      StripHead(s, NamePrefix(Preflight));
    }
  }

  lemma ParsePhaseExact(s: string, o: Owner)
    ensures ParsePhase(s) == Some(o)
            <==> o.run > 0 && o.attempt > 0 && s == NamePrefix(o.phase) + Numbers(o.run, o.attempt)
  {
    var preflight, smoke := Strip(s, NamePrefix(Preflight)), Strip(s, NamePrefix(Smoke));
    if ParsePhase(s) == Some(o) {
      match preflight
      case Some(tail) => StripExact(s, NamePrefix(Preflight), tail); ParseNumbersExact(Preflight, tail, o);
      case None =>
        match smoke
        case Some(tail) => StripExact(s, NamePrefix(Smoke), tail); ParseNumbersExact(Smoke, tail, o);
        case None => ParseNumbersExact(Deploy, s, o); assert s == NamePrefix(Deploy) + s;
    }
    if o.run > 0 && o.attempt > 0 && s == NamePrefix(o.phase) + Numbers(o.run, o.attempt) {
      var tail := Numbers(o.run, o.attempt);
      PhaseHeads(s, o);
      StripExact(s, NamePrefix(o.phase), tail);
      ParseNumbersExact(o.phase, tail, o);
      assert o.phase.Deploy? ==> s == tail;
    }
  }

  /** The accepted names are exactly the printed ones. */
  lemma ParseNameExact(s: string, o: Owner)
    ensures ParseName(s) == Some(o)
            <==> o.run > 0 && o.attempt > 0 && s == PrintName(o.phase, o.run, o.attempt)
  {
    match Strip(s, TRANSIENT)
    case Some(rest) =>
      StripExact(s, TRANSIENT, rest);
      ParsePhaseExact(rest, o);
    case None =>
    if o.run > 0 && o.attempt > 0 && s == PrintName(o.phase, o.run, o.attempt) {
      var rest := NamePrefix(o.phase) + Numbers(o.run, o.attempt);
      StripExact(s, TRANSIENT, rest);
      ParsePhaseExact(rest, o);
    }
  }

  /** Different attempts never share a rule name. */
  lemma NamesDistinct(a: Owner, b: Owner)
    requires a.run > 0 && a.attempt > 0 && b.run > 0 && b.attempt > 0
    requires PrintName(a.phase, a.run, a.attempt) == PrintName(b.phase, b.run, b.attempt)
    ensures a == b
  {
    ParseNameExact(PrintName(a.phase, a.run, a.attempt), a);
    ParseNameExact(PrintName(b.phase, b.run, b.attempt), b);
  }

  /** The producer-name match of `cleanup` agrees with the general name parser. */
  lemma ProducerAttemptExact(phase: Phase, run: nat, s: string, k: nat)
    requires run > 0
    ensures ProducerAttempt(phase, run, s) == Some(k) <==> ParseName(s) == Some(Owner(phase, run, k))
  {
    hide ParseName;
    hide Decimal.Print;
    hide Decimal.ParsePositive;
    var prefix := TRANSIENT + NamePrefix(phase) + Decimal.Print(run) + "-";
    ParseNameExact(s, Owner(phase, run, k));
    assert prefix + Decimal.Print(k) == PrintName(phase, run, k);
    StripExact(s, prefix, Decimal.Print(k));
    if Strip(s, prefix).Some? {
      Decimal.ParsePositiveExact(Strip(s, prefix).value, k);
    }
  }

  lemma SingleReports(one: Json, many: Json, value: string)
    requires value != ""
    ensures Reports(one, many, value) <==> Single(one, many) == Str(value)
  {
  }

  /** The rule that `create` writes is proved to belong to exactly the attempt that wrote it. */
  lemma CreatedRuleOwned(repo: string, o: Owner, ip: string, r: Rule)
    requires IdentityOf(repo, o).Success? && IPv4(ip)
    requires ReportsCreated(r, IdentityOf(repo, o).value, ip)
    ensures OwnerOf(r, repo) == Success(Some(o))
  {
    ParseNameExact(r.name, o);
    SingleReports(r.sourcePort, r.sourcePorts, "*");
    SingleReports(r.destinationPort, r.destinationPorts, "22");
    SingleReports(r.destinationAddress, r.destinationAddresses, "*");
    SingleReports(r.sourceAddress, r.sourceAddresses, ip + "/32");
    var source := ip + "/32";
    assert source[..|source| - 3] == ip && source[|source| - 3..] == "/32";
  }

  /** A proved owner is named by the rule and by its description, and the rule only opens SSH to one host. */
  lemma OwnedShape(r: Rule, repo: string, o: Owner)
    requires OwnerOf(r, repo) == Success(Some(o))
    ensures o.run > 0 && o.attempt > 0 && r.name == PrintName(o.phase, o.run, o.attempt)
    ensures RepositoryName(repo) && |Description(repo, o.phase, o.run, o.attempt)| <= 140
    ensures r.description == Str(Description(repo, o.phase, o.run, o.attempt))
            || r.description == Str(LegacyDescription(o.phase, o.run, o.attempt))
    ensures OpensOnlySsh(r, o.phase)
  {
    ParseNameExact(r.name, o);
  }

  // ---- What the checks mean, field by field

  lemma {:induction false} SplitDotsCut(a: string, rest: string)
    requires '.' !in a
    ensures SplitDots(a + "." + rest) == [a] + SplitDots(rest) && SplitDots(a) == [a]
  {
    var s := a + "." + rest;
    if a == "" {
      assert s[1..] == rest;
    } else {
      SplitDotsCut(a[1..], rest);
      assert s[1..] == a[1..] + "." + rest && [a[0]] + a[1..] == a;
    }
  }

  lemma {:induction false} SplitDotsHead(s: string)
    ensures SplitDots(s) != [] && '.' !in SplitDots(s)[0]
    ensures |SplitDots(s)| == 1 ==> s == SplitDots(s)[0]
    ensures |SplitDots(s)| > 1 ==>
              |SplitDots(s)[0]| < |s| && s[|SplitDots(s)[0]|] == '.' && s[..|SplitDots(s)[0]|] == SplitDots(s)[0]
              && SplitDots(s)[1..] == SplitDots(s[|SplitDots(s)[0]| + 1..])
  {
    if s != "" {
      SplitDotsHead(s[1..]);
      assert s == [s[0]] + s[1..];
      var rest := SplitDots(s[1..]);
      if s[0] != '.' && |rest| > 1 { assert s[|rest[0]| + 2..] == s[1..][|rest[0]| + 1..]; }
    }
  }

  lemma OctetPrints(s: string) returns (n: nat)
    requires Octet(s)
    ensures n <= 255 && s == Decimal.Print(n)
  {
    n := Decimal.ValueOf(s);
    if s[0] != '0' {
      Decimal.PrintValueOf(s);
    } else {
      assert s == "0" && s[..0] == "" && Decimal.ValueOf(s[..0]) == 0;
      assert Decimal.Print(0) == [Decimal.Digit(0)];
    }
  }

  lemma PrintedOctet(n: nat)
    requires n <= 255
    ensures Octet(Decimal.Print(n)) && '.' !in Decimal.Print(n)
  {
    Decimal.ValueOfPrint(n);
    assert |Decimal.Print(n / 10 / 10)| == 1 && |Decimal.Print(n / 10)| <= 2 && |Decimal.Print(n)| <= 3;
    var s := Decimal.Print(n);
    assert forall i :: 0 <= i < |s| ==> Decimal.IsDigit(s[i]);
  }

  function Quad(a: nat, b: nat, c: nat, d: nat): string {
    Decimal.Print(a) + "." + (Decimal.Print(b) + "." + (Decimal.Print(c) + "." + Decimal.Print(d)))
  }

  lemma QuadIsIPv4(a: nat, b: nat, c: nat, d: nat)
    requires a <= 255 && b <= 255 && c <= 255 && d <= 255
    ensures IPv4(Quad(a, b, c, d))
  {
    PrintedOctet(a);
    PrintedOctet(b);
    PrintedOctet(c);
    PrintedOctet(d);
    hide Decimal.Print;
    hide Octet;
    hide SplitDots;
    var p, q, r, s := Decimal.Print(a), Decimal.Print(b), Decimal.Print(c), Decimal.Print(d);
    SplitDotsCut(p, q + "." + (r + "." + s));
    SplitDotsCut(q, r + "." + s);
    SplitDotsCut(r, s);
    SplitDotsCut(s, "");
    assert SplitDots(Quad(a, b, c, d)) == [p, q, r, s];
  }

  /** An address is accepted exactly if it prints four numbers up to 255. */
  lemma IPv4Exact(s: string)
    ensures IPv4(s) <==> exists a: nat, b: nat, c: nat, d: nat ::
                           a <= 255 && b <= 255 && c <= 255 && d <= 255 && s == Quad(a, b, c, d)
  {
    hide Quad;
    if IPv4(s) {
      var a, b, c, d := QuadOf(s);
    }
    if a: nat, b: nat, c: nat, d: nat :| a <= 255 && b <= 255 && c <= 255 && d <= 255 && s == Quad(a, b, c, d) {
      QuadIsIPv4(a, b, c, d);
    }
  }

  lemma QuadOf(s: string) returns (a: nat, b: nat, c: nat, d: nat)
    requires IPv4(s)
    ensures a <= 255 && b <= 255 && c <= 255 && d <= 255 && s == Quad(a, b, c, d)
  {
    hide Octet;
    hide Decimal.Print;
    var parts := SplitDots(s);
    a := OctetPrints(parts[0]);
    b := OctetPrints(parts[1]);
    c := OctetPrints(parts[2]);
    d := OctetPrints(parts[3]);
    hide SplitDots;
    var s1 := CutHead(s);
    var s2 := CutHead(s1);
    var s3 := CutHead(s2);
    SplitDotsHead(s3);
  }

  lemma CutHead(s: string) returns (rest: string)
    requires |SplitDots(s)| > 1
    ensures SplitDots(rest) == SplitDots(s)[1..] && s == SplitDots(s)[0] + "." + rest
  {
    SplitDotsHead(s);
    hide SplitDots;
    var n := |SplitDots(s)[0]|;
    rest := s[n + 1..];
    assert s == s[..n] + [s[n]] + s[n + 1..];
  }

  /** The one value of a field that may be reported singular or plural. */
  ghost predicate HasOnly(one: Json, many: Json, v: Json) {
    || (one == v && v != Null && v != Str("") && (many == Null || many == List([])))
    || ((one == Null || one == Str("")) && many == List([v]))
  }

  lemma SingleExact(one: Json, many: Json, v: Json)
    requires v != Null
    ensures Single(one, many) == v <==> HasOnly(one, many, v)
  {
  }

  /** Absent, empty, false or zero. */
  ghost predicate NoneGiven(v: Json) {
    || v == Null || v == Bool(false) || v == Int(0) || v == Float(0.0)
    || v == Str("") || v == List([]) || v == Object(map[])
  }

  /** The name, description and priority of each phase, written out. */
  lemma IdentityExact(repo: string, o: Owner, id: Identity)
    ensures IdentityOf(repo, o) == Success(id) <==>
            && RepositoryName(repo) && o.run > 0 && o.attempt > 0 && |id.description| <= 140
            && var n := Decimal.Print(o.run) + "-" + Decimal.Print(o.attempt);
               match o.phase
               case Deploy =>
                 id == Identity("gha-transient-" + n, OwnerText(repo, "deploy.yml", o.run, o.attempt, "deploy"), 200)
               case Preflight =>
                 id == Identity("gha-transient-" + ("preflight-" + n),
                                OwnerText(repo, "deploy.yml", o.run, o.attempt, "preflight"), 201)
               case Smoke =>
                 id == Identity("gha-transient-" + ("smoke-" + n),
                                OwnerText(repo, "smoke.yml", o.run, o.attempt, "smoke"), 202)
  {
    if o.run > 0 && o.attempt > 0 { assert "" + Numbers(o.run, o.attempt) == Numbers(o.run, o.attempt); }
  }

  /** The description format, for any workflow and phase text. */
  function OwnerText(repo: string, workflow: string, run: nat, attempt: nat, phase: string): string {
    "msai-ssh:v1;repo=" + repo + ";workflow=" + workflow + ";run=" + Decimal.Print(run)
    + ";attempt=" + Decimal.Print(attempt) + ";phase=" + phase
  }

  /**
   `owner` returns an attempt exactly for the rules that are named and described for it and that only open
   port 22 inbound, to any destination, for one IPv4 host.
   */
  lemma OwnerExact(r: Rule, repo: string, o: Owner)
    ensures OwnerOf(r, repo) == Success(Some(o)) <==>
            exists id: Identity ::
              && IdentityOf(repo, o) == Success(id) && r.name == id.name
              && (r.description == Str(id.description) || r.description == Str(LegacyText(o)))
              && r.priority == Int(id.priority) && r.direction == Str("Inbound")
              && r.access == Str("Allow") && r.protocol == Str("Tcp")
              && NoneGiven(r.sourceGroups) && NoneGiven(r.destinationGroups)
              && HasOnly(r.sourcePort, r.sourcePorts, Str("*"))
              && HasOnly(r.destinationPort, r.destinationPorts, Str("22"))
              && HasOnly(r.destinationAddress, r.destinationAddresses, Str("*"))
              && exists ip :: IPv4(ip) && HasOnly(r.sourceAddress, r.sourceAddresses, Str(ip + "/32"))
  {
    hide IPv4;
    hide HasOnly;
    hide Single;
    hide ParseName;
    hide PrintName;
    hide Description;
    ParseNameExact(r.name, o);
    TruthyExact(r.sourceGroups);
    TruthyExact(r.destinationGroups);
    SingleExact(r.sourcePort, r.sourcePorts, Str("*"));
    SingleExact(r.destinationPort, r.destinationPorts, Str("22"));
    SingleExact(r.destinationAddress, r.destinationAddresses, Str("*"));
    SourceExact(r.sourceAddress, r.sourceAddresses);
    LegacyExact(o);
  }

  lemma TruthyExact(v: Json)
    ensures Truthy(v) <==> !NoneGiven(v)
  {
  }

  lemma SourceExact(one: Json, many: Json)
    ensures HostNetwork(Single(one, many)) <==> exists ip :: IPv4(ip) && HasOnly(one, many, Str(ip + "/32"))
  {
    hide IPv4;
    hide Single;
    hide HasOnly;
    var v := Single(one, many);
    if HostNetwork(v) {
      var ip := v.s[..|v.s| - 3];
      assert v.s == ip + "/32";
      SingleExact(one, many, v);
    }
    if ip :| IPv4(ip) && HasOnly(one, many, Str(ip + "/32")) {
      SingleExact(one, many, Str(ip + "/32"));
      HostSuffix(ip);
    }
  }

  lemma HostSuffix(ip: string)
    ensures IPv4(ip) ==> HostNetwork(Str(ip + "/32"))
  {
    hide IPv4;
    var s := ip + "/32";
    assert s[..|s| - 3] == ip && s[|s| - 3..] == "/32";
  }

  /** The description of rules from before the current format. */
  function LegacyText(o: Owner): string {
    var numbers := if o.run > 0 && o.attempt > 0 then (Decimal.Print(o.run), Decimal.Print(o.attempt)) else ("", "");
    var who :=
      if o.phase == Smoke then "GHA smoke.yml" else if o.phase == Preflight then "GHA deploy.yml preflight" else "GHA";
    "Transient SSH from " + who + ". run_id=" + numbers.0 + " attempt=" + numbers.1
    + ". See docs/decisions/deploy-ssh-jit.md"
  }

  lemma LegacyExact(o: Owner)
    ensures o.run > 0 && o.attempt > 0 ==> LegacyDescription(o.phase, o.run, o.attempt) == LegacyText(o)
  {
    hide Decimal.Print;
  }
}
