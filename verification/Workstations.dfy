/**
 The strict validator of workstation reports.

 A report is a typed value; `Encode...` is the one JSON value that stands for
 it.  Every reader is specified the same way: it answers `Success(v)` exactly when
 `v` is valid and the input is the encoding of `v`.
 */
module Workstations {
  import opened Text
  import opened Values

  // ----- JSON values -----

  datatype Json =
    | JNull
    | JBool(b: bool)
    | JNumber(n: Number)
    | JString(s: string)
    | JArray(items: seq<Json>)
    | JObject(members: map<string, Json>)

  function JInt(n: int): Json { JNumber(Finite(n as real)) }

  function JReal(x: real): Json { JNumber(Finite(x)) }

  function JNullable(x: Option<real>): Json { if x.Some? then JReal(x.value) else JNull }

  // A member of an object; None is `undefined`.
  function Member(members: map<string, Json>, key: string): Option<Json> {
    if key in members then Some(members[key]) else None
  }

  datatype Problem =
    | NotAnObject | UnsupportedKey | NotAnArray | TooManyItems | WrongItemCount
    | NotAString | EmptyString | TooLong | BlankString
    | NotANumber | NotAnInteger | OutOfRange | NotAFamily | NotABoolean | NotAllowed
    | NotAUuid | NotAnAddress | FamilyMismatch
    | ExceedsTotal | WrongCount | IncoherentStatus | BeforeStart | RunTooLong | OutsideSkew | Duplicate

  datatype Refusal = Refusal(field: string, problem: Problem)

  // The checks of literal text that stay uninterpreted.
  datatype Literals = Literals(isUuid: string -> bool, isIpv4: string -> bool, isIpv6: string -> bool) {
    function IpFamily(s: string): int { if isIpv4(s) then 4 else if isIpv6(s) then 6 else 0 }

    // A literal of this family; what reads as IPv4 is never IPv6.
    predicate Matches(s: string, family: int) {
      (family == 4 && isIpv4(s)) || (family == 6 && !isIpv4(s) && isIpv6(s))
    }
  }

  // ----- Limits -----

  const PING_COUNT := 3
  const MAX_TARGETS := 100
  const SKEW_SECONDS := 300
  const MAX_RUN_MS := 120_000
  const MAX_SAFE_INTEGER := 9_007_199_254_740_991
  const MAX_BYTES := 1_125_899_906_842_624
  const MAX_UPTIME := 3_155_760_000
  const MAX_RTT := 60_000.0

  // ----- Scalar readers -----

  // `s.length`: UTF-16 units.
  function Utf16Length(s: string): nat {
    if s == "" then 0 else Utf16Length(s[..|s| - 1]) + (if s[|s| - 1] >= '\U{10000}' then 2 else 1)
  }

  /** A character counts one unit, and two above U+FFFF. */
  lemma {:induction false} Utf16Adds(a: string, b: string, c: char)
    ensures Utf16Length([c]) == if c as int > 0xFFFF then 2 else 1
    ensures Utf16Length(a + b) == Utf16Length(a) + Utf16Length(b)
  {
    assert [c][..0] == "";
    if b == "" {
      assert a + b == a;
    } else {
      Utf16Adds(a, b[..|b| - 1], c);
      assert (a + b)[..|a + b| - 1] == a + b[..|b| - 1];
    }
  }

  predicate IsText(s: string, maxLength: nat) {
    s != "" && Utf16Length(s) <= maxLength && exists k :: 0 <= k < |s| && !IsJsSpace(s[k])
  }

  function ReadString(field: string, input: Option<Json>, maxLength: nat): (r: Result<string, Refusal>)
    ensures forall s :: r == Success(s) <==> input == Some(JString(s)) && IsText(s, maxLength)
  {
    if input.None? || !input.value.JString? then Failure(Refusal(field, NotAString))
    else
      var s := input.value.s;
      if s == "" then Failure(Refusal(field, EmptyString))
      else if Utf16Length(s) > maxLength then Failure(Refusal(field, TooLong))
      else if forall k :: 0 <= k < |s| ==> IsJsSpace(s[k]) then Failure(Refusal(field, BlankString))
      else Success(s)
  }

  function ReadNumber(field: string, input: Option<Json>, min: real, max: real): (r: Result<real, Refusal>)
    ensures forall x :: r == Success(x) <==> input == Some(JReal(x)) && min <= x <= max
  {
    if input.None? || !input.value.JNumber? || input.value.n.NonFinite? then Failure(Refusal(field, NotANumber))
    else
      var x := input.value.n.value;
      if x < min || x > max then Failure(Refusal(field, OutOfRange)) else Success(x)
  }

  function ReadInteger(field: string, input: Option<Json>, min: int, max: int): (r: Result<int, Refusal>)
    ensures forall n :: r == Success(n) <==> input == Some(JInt(n)) && min <= n <= max
  {
    if input.None? || !input.value.JNumber? || input.value.n.NonFinite? then Failure(Refusal(field, NotAnInteger))
    else
      var x := input.value.n.value;
      var n := x.Floor;
      if n as real != x then Failure(Refusal(field, NotAnInteger))
      else if n < min || n > max then Failure(Refusal(field, OutOfRange)) else Success(n)
  }

  predicate NullableInRange(x: Option<real>, min: real, max: real) {
    x.Some? ==> min <= x.value <= max
  }

  function ReadNullableNumber(field: string, input: Option<Json>, min: real,
                              max: real): (r: Result<Option<real>, Refusal>)
    ensures forall x :: r == Success(x) <==> input == Some(JNullable(x)) && NullableInRange(x, min, max)
  {
    if input == Some(JNull) then Success(None)
    else
      match ReadNumber(field, input, min, max)
      case Success(x) => Success(Some(x))
      case Failure(e) => Failure(e)
  }

  function ReadFamily(field: string, input: Option<Json>): (r: Result<int, Refusal>)
    ensures forall n :: r == Success(n) <==> input == Some(JInt(n)) && n in {4, 6}
  {
    if input == Some(JInt(4)) then Success(4)
    else if input == Some(JInt(6)) then Success(6)
    else Failure(Refusal(field, NotAFamily))
  }

  datatype Status = Reachable | Partial | Timeout | Unreachable | Error | Unsupported

  function StatusName(s: Status): string {
    match s
    case Reachable => "reachable"
    case Partial => "partial"
    case Timeout => "timeout"
    case Unreachable => "unreachable"
    case Error => "error"
    case Unsupported => "unsupported"
  }

  function ReadStatus(field: string, input: Option<Json>): (r: Result<Status, Refusal>)
    ensures forall s :: r == Success(s) <==> input == Some(JString(StatusName(s)))
  {
    if input == Some(JString("reachable")) then Success(Reachable)
    else if input == Some(JString("partial")) then Success(Partial)
    else if input == Some(JString("timeout")) then Success(Timeout)
    else if input == Some(JString("unreachable")) then Success(Unreachable)
    else if input == Some(JString("error")) then Success(Error)
    else if input == Some(JString("unsupported")) then Success(Unsupported)
    else Failure(Refusal(field, NotAllowed))
  }

  function ReadUuid(lits: Literals, field: string, input: Option<Json>): (r: Result<string, Refusal>)
    ensures forall s :: r == Success(s) <==> input == Some(JString(s)) && lits.isUuid(s)
  {
    if input.Some? && input.value.JString? && lits.isUuid(input.value.s) then Success(input.value.s)
    else Failure(Refusal(field, NotAUuid))
  }

  // An address literal and the family it must match.
  function ReadIpLiteral(lits: Literals, field: string, input: Option<Json>): (r: Result<string, Refusal>)
    ensures forall s :: r == Success(s) <==> input == Some(JString(s)) && (lits.isIpv4(s) || lits.isIpv6(s))
  {
    if input.Some? && input.value.JString? && lits.IpFamily(input.value.s) != 0 then Success(input.value.s)
    else Failure(Refusal(field, NotAnAddress))
  }

  // ----- Containers -----

  function ReadObject(field: string, input: Option<Json>, keys: set<string>): (r: Result<map<string, Json>, Refusal>)
    ensures forall m :: r == Success(m) <==> input == Some(JObject(m)) && m.Keys <= keys
  {
    if input.None? || !input.value.JObject? then Failure(Refusal(field, NotAnObject))
    else if !(input.value.members.Keys <= keys) then Failure(Refusal(field, UnsupportedKey))
    else Success(input.value.members)
  }

  function ReadArray(field: string, input: Option<Json>, maxLength: nat): (r: Result<seq<Json>, Refusal>)
    ensures forall items :: r == Success(items) <==> input == Some(JArray(items)) && |items| <= maxLength
  {
    if input.None? || !input.value.JArray? then Failure(Refusal(field, NotAnArray))
    else if |input.value.items| > maxLength then Failure(Refusal(field, TooManyItems))
    else Success(input.value.items)
  }

  // ----- Disk -----

  datatype Disk = Disk(mount: string, total: int, available: int, usedPct: real)

  predicate ValidDisk(d: Disk) {
    && IsText(d.mount, 512)
    && 1 <= d.total <= 1_125_899_906_842_624 && 0 <= d.available <= d.total
    && 0.0 <= d.usedPct <= 100.0
  }

  function EncodeDisk(d: Disk): Json {
    JObject(map["mount" := JString(d.mount), "total_bytes" := JInt(d.total),
                "available_bytes" := JInt(d.available), "used_pct" := JReal(d.usedPct)])
  }

  function ReadDisk(input: Json): (r: Result<Disk, Refusal>)
    ensures forall d :: r == Success(d) <==> ValidDisk(d) && input == EncodeDisk(d)
  {
    var m :- ReadObject("disk entry", Some(input), {"mount", "total_bytes", "available_bytes", "used_pct"});
    var mount :- ReadString("disk.mount", Member(m, "mount"), 512);
    var total :- ReadInteger("disk.total_bytes", Member(m, "total_bytes"), 1, MAX_BYTES);
    var available :- ReadInteger("disk.available_bytes", Member(m, "available_bytes"), 0, MAX_BYTES);
    if available > total then Failure(Refusal("disk.available_bytes", ExceedsTotal))
    else
      var usedPct :- ReadNumber("disk.used_pct", Member(m, "used_pct"), 0.0, 100.0);
      Success(Disk(mount, total, available, usedPct))
  }

  // ----- Network -----

  datatype Address = Address(address: string, family: int, isInternal: bool)

  datatype Interface = Interface(name: string, addresses: seq<Address>)

  predicate ValidAddress(lits: Literals, a: Address) {
    lits.Matches(a.address, a.family)
  }

  function EncodeAddress(a: Address): Json {
    JObject(map["address" := JString(a.address), "family" := JInt(a.family), "internal" := JBool(a.isInternal)])
  }

  // An address literal and the family that must match it.
  function ReadEndpoint(lits: Literals, field: string, m: map<string, Json>): (r: Result<(string, int), Refusal>)
    ensures forall a, f :: r == Success((a, f)) <==>
              && Member(m, "address") == Some(JString(a)) && Member(m, "family") == Some(JInt(f))
              && lits.Matches(a, f)
  {
    var address :- ReadIpLiteral(lits, field, Member(m, "address"));
    var family :- ReadFamily(field, Member(m, "family"));
    if lits.IpFamily(address) != family then Failure(Refusal(field, FamilyMismatch)) else Success((address, family))
  }

  function ReadAddress(lits: Literals, input: Json): (r: Result<Address, Refusal>)
    ensures forall a :: r == Success(a) <==> ValidAddress(lits, a) && input == EncodeAddress(a)
  {
    var m :- ReadObject("network address", Some(input), {"address", "family", "internal"});
    var (address, family) :- ReadEndpoint(lits, "network.address", m);
    var isInternal := Member(m, "internal");
    if isInternal.None? || !isInternal.value.JBool? then Failure(Refusal("network.internal", NotABoolean))
    else Success(Address(address, family, isInternal.value.b))
  }

  function EncodeAddresses(addresses: seq<Address>): (r: seq<Json>)
    ensures |r| == |addresses| && forall k :: 0 <= k < |r| ==> r[k] == EncodeAddress(addresses[k])
  {
    seq(|addresses|, k requires 0 <= k < |addresses| => EncodeAddress(addresses[k]))
  }

  // The loop over an array: stops at the first item that is not accepted.
  method ReadAll<T(!new)>(items: seq<Json>, read: Json -> Result<T, Refusal>) returns (r: Result<seq<T>, Refusal>)
    ensures forall vs :: r == Success(vs) <==> |vs| == |items| && forall k :: 0 <= k < |items| ==>
        read(items[k]) == Success(vs[k])
  {
    var parsed: seq<T> := [];
    for i := 0 to |items|
      invariant |parsed| == i
      invariant forall k :: 0 <= k < i ==> read(items[k]) == Success(parsed[k])
    {
      var result :- read(items[i]);
      parsed := parsed + [result];
    }
    r := Success(parsed);
    forall vs | |vs| == |items| && forall k :: 0 <= k < |items| ==> read(items[k]) == Success(vs[k])
        ensures vs == parsed {
      assert forall k :: 0 <= k < |items| ==> read(items[k]).value == vs[k];
    }
  }

  predicate ValidAddresses(lits: Literals, addresses: seq<Address>) {
    forall k :: 0 <= k < |addresses| ==> ValidAddress(lits, addresses[k])
  }

  method ReadAddresses(lits: Literals, items: seq<Json>) returns (r: Result<seq<Address>, Refusal>)
    ensures forall vs :: r == Success(vs) <==> items == EncodeAddresses(vs) && ValidAddresses(lits, vs)
  {
    r := ReadAll(items, input => ReadAddress(lits, input));
    forall vs: seq<Address> ensures items == EncodeAddresses(vs) && ValidAddresses(lits, vs) <==>
                      |vs| == |items| && forall k :: 0 <= k < |items| ==> ReadAddress(lits, items[k]) == Success(vs[k])
    {
      if |vs| == |items| {
        assert forall k :: 0 <= k < |items| ==>
          (ReadAddress(lits, items[k]) == Success(vs[k])
           <==> ValidAddress(lits, vs[k]) && items[k] == EncodeAddress(vs[k]));
      }
    }
  }

  predicate ValidInterface(lits: Literals, i: Interface) {
    IsText(i.name, 64) && |i.addresses| <= 16 && ValidAddresses(lits, i.addresses)
  }

  function EncodeInterface(i: Interface): Json {
    JObject(map["name" := JString(i.name), "addresses" := JArray(EncodeAddresses(i.addresses))])
  }

  const INTERFACE_KEYS: set<string> := {"name", "addresses"}

  predicate HasInterface(m: map<string, Json>, i: Interface) {
    Member(m, "name") == Some(JString(i.name)) && Member(m, "addresses") == Some(JArray(EncodeAddresses(i.addresses)))
  }

  lemma InterfaceMembers(m: map<string, Json>, i: Interface)
    ensures JObject(m) == EncodeInterface(i) <==> m.Keys <= INTERFACE_KEYS && HasInterface(m, i)
  {
    var e := EncodeInterface(i).members;
    assert e.Keys == INTERFACE_KEYS && HasInterface(e, i);
    if m.Keys <= INTERFACE_KEYS && HasInterface(m, i) {
      assert forall k :: k in INTERFACE_KEYS ==> k in m && m[k] == e[k];
      assert m == e;
    }
  }

  method ReadInterface(lits: Literals, input: Json) returns (r: Result<Interface, Refusal>)
    ensures forall i :: r == Success(i) <==> ValidInterface(lits, i) && input == EncodeInterface(i)
  {
    var m :- ReadObject("network interface", Some(input), INTERFACE_KEYS);
    assert forall i :: input == EncodeInterface(i) <==> HasInterface(m, i) by {
      forall i ensures input == EncodeInterface(i) <==> HasInterface(m, i) { InterfaceMembers(m, i); }
    }
    var name :- ReadString("network.interface.name", Member(m, "name"), 64);
    var items :- ReadArray("network.interface.addresses", Member(m, "addresses"), 16);
    var addresses :- ReadAddresses(lits, items);
    r := Success(Interface(name, addresses));
  }

  // ----- Connectivity -----

  type Rtts = (Option<real>, Option<real>, Option<real>)

  datatype Connectivity = Connectivity(
    serverId: string, address: string, family: int, sent: int, received: int, rtts: Rtts, status: Status)

  function Answered(rtts: Rtts): int {
    (if rtts.0.Some? then 1 else 0) + (if rtts.1.Some? then 1 else 0) + (if rtts.2.Some? then 1 else 0)
  }

  predicate ValidRtts(rtts: Rtts) {
    NullableInRange(rtts.0, 0.0, 60_000.0) && NullableInRange(rtts.1, 0.0, 60_000.0)
        && NullableInRange(rtts.2, 0.0, 60_000.0)
  }

  // `rtts.filter((rtt) => rtt !== null)`
  function NonNull(items: seq<Json>): seq<Json> {
    if items == [] then [] else (if items[0] == JNull then [] else [items[0]]) + NonNull(items[1..])
  }

  /** The answered pings are the entries of the array that are not null. */
  lemma AnsweredMeaning(rtts: Rtts)
    ensures Answered(rtts) == |NonNull(EncodeRtts(rtts).items)|
  {
    var items := EncodeRtts(rtts).items;
    assert NonNull(items[3..]) == [] && items[2..][1..] == items[3..] && items[1..][1..] == items[2..];
    assert |NonNull(items[2..])| == if rtts.2.Some? then 1 else 0;
    assert |NonNull(items[1..])| == (if rtts.1.Some? then 1 else 0) + |NonNull(items[2..])|;
  }

  // The status agrees with how many pings were answered.
  predicate Coherent(status: Status, received: int) {
    match status
    case Reachable => received == 3
    case Partial => 0 < received < 3
    case Timeout => received == 0
    case Unreachable => received == 0
    case Unsupported => received == 0
    case Error => true
  }

  predicate ValidConnectivity(lits: Literals, c: Connectivity) {
    && IsText(c.serverId, 128)
    && lits.Matches(c.address, c.family)
    && c.sent == 3
    && ValidRtts(c.rtts)
    && c.received == Answered(c.rtts)
    && Coherent(c.status, c.received)
  }

  function EncodeRtts(rtts: Rtts): Json {
    JArray([JNullable(rtts.0), JNullable(rtts.1), JNullable(rtts.2)])
  }

  function EncodeConnectivity(c: Connectivity): Json {
    JObject(map["server_id" := JString(c.serverId), "address" := JString(c.address), "family" := JInt(c.family),
                "sent" := JInt(c.sent), "received" := JInt(c.received), "rtts_ms" := EncodeRtts(c.rtts),
                "status" := JString(StatusName(c.status))])
  }

  function ReadRtts(field: string, input: Option<Json>): (r: Result<Rtts, Refusal>)
    ensures forall rtts :: r == Success(rtts) <==> ValidRtts(rtts) && input == Some(EncodeRtts(rtts))
  {
    var entries :- ReadArray(field, input, PING_COUNT);
    if |entries| != PING_COUNT then Failure(Refusal(field, WrongItemCount))
    else
      var first :- ReadNullableNumber(field, Some(entries[0]), 0.0, MAX_RTT);
      var second :- ReadNullableNumber(field, Some(entries[1]), 0.0, MAX_RTT);
      var third :- ReadNullableNumber(field, Some(entries[2]), 0.0, MAX_RTT);
      assert entries == [entries[0], entries[1], entries[2]];
      Success((first, second, third))
  }

  function ReadPings(m: map<string, Json>): (r: Result<(int, Rtts), Refusal>)
    ensures forall received, rtts :: r == Success((received, rtts)) <==>
              && Member(m, "sent") == Some(JInt(PING_COUNT))
              && Member(m, "rtts_ms") == Some(EncodeRtts(rtts)) && ValidRtts(rtts)
              && Member(m, "received") == Some(JInt(received)) && received == Answered(rtts)
  {
    var sent :- ReadInteger("connectivity.sent", Member(m, "sent"), 1, PING_COUNT);
    if sent != PING_COUNT then Failure(Refusal("connectivity.sent", WrongCount))
    else
      var rtts :- ReadRtts("connectivity.rtts_ms", Member(m, "rtts_ms"));
      var received :- ReadInteger("connectivity.received", Member(m, "received"), 0, PING_COUNT);
      if Answered(rtts) != received then Failure(Refusal("connectivity.received", WrongCount))
      else Success((received, rtts))
  }

  function ReadCoherentStatus(m: map<string, Json>, received: int): (r: Result<Status, Refusal>)
    requires 0 <= received <= PING_COUNT
    ensures forall s :: r == Success(s) <==>
              Member(m, "status") == Some(JString(StatusName(s))) && Coherent(s, received)
  {
    var status :- ReadStatus("connectivity.status", Member(m, "status"));
    if status == Reachable && received != PING_COUNT then Failure(Refusal("connectivity.status", IncoherentStatus))
    else if status == Partial && (received == 0 || received == PING_COUNT) then
      Failure(Refusal("connectivity.status", IncoherentStatus))
    else if status in {Timeout, Unreachable, Unsupported} && received != 0 then
      Failure(Refusal("connectivity.status", IncoherentStatus))
    else Success(status)
  }

  const CONNECTIVITY_KEYS: set<string> := {"server_id", "address", "family", "sent", "received", "rtts_ms", "status"}

  predicate HasConnectivity(m: map<string, Json>, c: Connectivity) {
    && Member(m, "server_id") == Some(JString(c.serverId))
    && Member(m, "address") == Some(JString(c.address)) && Member(m, "family") == Some(JInt(c.family))
    && Member(m, "sent") == Some(JInt(c.sent)) && Member(m, "received") == Some(JInt(c.received))
    && Member(m, "rtts_ms") == Some(EncodeRtts(c.rtts)) && Member(m, "status") == Some(JString(StatusName(c.status)))
  }

  lemma ConnectivityEncoded(c: Connectivity)
    ensures EncodeConnectivity(c).members.Keys == CONNECTIVITY_KEYS && HasConnectivity(EncodeConnectivity(c).members, c)
  {
  }

  lemma SameConnectivityMembers(m: map<string, Json>, e: map<string, Json>, c: Connectivity)
    requires m.Keys <= CONNECTIVITY_KEYS && HasConnectivity(m, c)
    requires e.Keys <= CONNECTIVITY_KEYS && HasConnectivity(e, c)
    ensures m == e
  {
    forall k | k in CONNECTIVITY_KEYS ensures k in m && k in e && m[k] == e[k] {
      assert Member(m, k).Some? && Member(m, k) == Member(e, k);
    }
    assert m == e;
  }

  lemma ConnectivityMembers(m: map<string, Json>, c: Connectivity)
    ensures JObject(m) == EncodeConnectivity(c) <==> m.Keys <= CONNECTIVITY_KEYS && HasConnectivity(m, c)
  {
    ConnectivityEncoded(c);
    if m.Keys <= CONNECTIVITY_KEYS && HasConnectivity(m, c) {
      SameConnectivityMembers(m, EncodeConnectivity(c).members, c);
    }
  }

  function ReadConnectivity(lits: Literals, input: Json): (r: Result<Connectivity, Refusal>)
    ensures forall c :: r == Success(c) <==> ValidConnectivity(lits, c) && input == EncodeConnectivity(c)
  {
    var m :- ReadObject("connectivity entry", Some(input), CONNECTIVITY_KEYS);
    assert forall c :: input == EncodeConnectivity(c) <==> HasConnectivity(m, c) by {
      forall c ensures input == EncodeConnectivity(c) <==> HasConnectivity(m, c) { ConnectivityMembers(m, c); }
    }
    var serverId :- ReadString("connectivity.server_id", Member(m, "server_id"), 128);
    var (address, family) :- ReadEndpoint(lits, "connectivity.address", m);
    var (received, rtts) :- ReadPings(m);
    var status :- ReadCoherentStatus(m, received);
    Success(Connectivity(serverId, address, family, PING_COUNT, received, rtts, status))
  }

  // ----- The report -----

  datatype Cpu = Cpu(model: string, count: int, usagePct: Option<real>)

  datatype Memory = Memory(total: int, available: int, usedPct: real)

  datatype Head = Head(
    reportId: string, startedAt: int, finishedAt: int, sampleWindowMs: int,
    cliVersion: string, hostname: string, os: string, arch: string, uptime: int)

  datatype Report = Report(
    head: Head, cpu: Cpu, mem: Memory, disk: seq<Disk>, interfaces: seq<Interface>,
    connectivity: seq<Connectivity>, collectionErrors: seq<string>, targetsError: Option<string>)

  predicate ValidHead(lits: Literals, now: real, h: Head) {
    && lits.isUuid(h.reportId)
    && 0 <= h.startedAt <= h.finishedAt <= 9_007_199_254_740_991
    && (h.finishedAt - h.startedAt) * 1000 <= 120_000
    && -300.0 <= now - h.finishedAt as real <= 300.0
    && 1 <= h.sampleWindowMs <= 120_000
    && IsText(h.cliVersion, 32) && IsText(h.hostname, 253) && IsText(h.os, 128) && IsText(h.arch, 32)
    && 0 <= h.uptime <= 3_155_760_000
  }

  predicate ValidCpu(c: Cpu) {
    IsText(c.model, 128) && 1 <= c.count <= 1024 && NullableInRange(c.usagePct, 0.0, 100.0)
  }

  predicate ValidMemory(m: Memory) {
    1 <= m.total <= 1_125_899_906_842_624 && 0 <= m.available <= m.total && 0.0 <= m.usedPct <= 100.0
  }

  predicate ValidDisks(disks: seq<Disk>) {
    |disks| <= 64 && forall k :: 0 <= k < |disks| ==> ValidDisk(disks[k])
  }

  predicate ValidInterfaces(lits: Literals, interfaces: seq<Interface>) {
    |interfaces| <= 32 && forall k :: 0 <= k < |interfaces| ==> ValidInterface(lits, interfaces[k])
  }

  // Server ids are unique; one address may serve several servers.
  predicate ValidConnectivities(lits: Literals, cs: seq<Connectivity>) {
    && |cs| <= 100
    && (forall k :: 0 <= k < |cs| ==> ValidConnectivity(lits, cs[k]))
    && forall j, k :: 0 <= j < k < |cs| ==> cs[j].serverId != cs[k].serverId
  }

  predicate ValidErrors(errors: seq<string>) {
    |errors| <= 32 && forall k :: 0 <= k < |errors| ==> IsText(errors[k], 512)
  }

  predicate ValidReport(lits: Literals, now: real, r: Report) {
    && ValidHead(lits, now, r.head) && ValidCpu(r.cpu) && ValidMemory(r.mem)
    && ValidDisks(r.disk) && ValidInterfaces(lits, r.interfaces) && ValidConnectivities(lits, r.connectivity)
    && ValidErrors(r.collectionErrors) && (r.targetsError.Some? ==> IsText(r.targetsError.value, 512))
  }

  function EncodeCpu(c: Cpu): Json {
    JObject(map["model" := JString(c.model), "count" := JInt(c.count), "usage_pct" := JNullable(c.usagePct)])
  }

  function EncodeMemory(m: Memory): Json {
    JObject(map["total_bytes" := JInt(m.total), "available_bytes" := JInt(m.available), "used_pct" := JReal(m.usedPct)])
  }

  function EncodeDisks(disks: seq<Disk>): (r: seq<Json>)
    ensures |r| == |disks| && forall k :: 0 <= k < |r| ==> r[k] == EncodeDisk(disks[k])
  {
    seq(|disks|, k requires 0 <= k < |disks| => EncodeDisk(disks[k]))
  }

  function EncodeInterfaces(interfaces: seq<Interface>): (r: seq<Json>)
    ensures |r| == |interfaces| && forall k :: 0 <= k < |r| ==> r[k] == EncodeInterface(interfaces[k])
  {
    seq(|interfaces|, k requires 0 <= k < |interfaces| => EncodeInterface(interfaces[k]))
  }

  function EncodeConnectivities(cs: seq<Connectivity>): (r: seq<Json>)
    ensures |r| == |cs| && forall k :: 0 <= k < |r| ==> r[k] == EncodeConnectivity(cs[k])
  {
    seq(|cs|, k requires 0 <= k < |cs| => EncodeConnectivity(cs[k]))
  }

  function EncodeStrings(strings: seq<string>): (r: seq<Json>)
    ensures |r| == |strings| && forall k :: 0 <= k < |r| ==> r[k] == JString(strings[k])
  {
    seq(|strings|, k requires 0 <= k < |strings| => JString(strings[k]))
  }

  function EncodeNetwork(interfaces: seq<Interface>): Json {
    JObject(map["interfaces" := JArray(EncodeInterfaces(interfaces))])
  }

  function EncodeNullableString(s: Option<string>): Json {
    if s.Some? then JString(s.value) else JNull
  }

  const REPORT_KEYS: set<string> := {
    "report_id", "started_at", "finished_at", "sample_window_ms", "cli_version", "hostname", "os", "arch",
    "uptime_seconds", "cpu", "mem", "disk", "network", "connectivity", "collection_errors", "targets_error"}

  function EncodeReport(r: Report): Json {
    JObject(map[
      "report_id" := JString(r.head.reportId), "started_at" := JInt(r.head.startedAt),
      "finished_at" := JInt(r.head.finishedAt), "sample_window_ms" := JInt(r.head.sampleWindowMs),
      "cli_version" := JString(r.head.cliVersion), "hostname" := JString(r.head.hostname),
      "os" := JString(r.head.os), "arch" := JString(r.head.arch), "uptime_seconds" := JInt(r.head.uptime),
      "cpu" := EncodeCpu(r.cpu), "mem" := EncodeMemory(r.mem), "disk" := JArray(EncodeDisks(r.disk)),
      "network" := EncodeNetwork(r.interfaces), "connectivity" := JArray(EncodeConnectivities(r.connectivity)),
      "collection_errors" := JArray(EncodeStrings(r.collectionErrors)),
      "targets_error" := EncodeNullableString(r.targetsError)])
  }

  // ----- Reading the report -----

  predicate HasTimes(m: map<string, Json>, h: Head) {
    && Member(m, "report_id") == Some(JString(h.reportId))
    && Member(m, "started_at") == Some(JInt(h.startedAt)) && Member(m, "finished_at") == Some(JInt(h.finishedAt))
    && Member(m, "sample_window_ms") == Some(JInt(h.sampleWindowMs))
  }

  predicate HasNames(m: map<string, Json>, h: Head) {
    && Member(m, "cli_version") == Some(JString(h.cliVersion)) && Member(m, "hostname") == Some(JString(h.hostname))
    && Member(m, "os") == Some(JString(h.os)) && Member(m, "arch") == Some(JString(h.arch))
    && Member(m, "uptime_seconds") == Some(JInt(h.uptime))
  }

  predicate HasBody(m: map<string, Json>, r: Report) {
    && Member(m, "cpu") == Some(EncodeCpu(r.cpu)) && Member(m, "mem") == Some(EncodeMemory(r.mem))
    && Member(m, "disk") == Some(JArray(EncodeDisks(r.disk)))
    && Member(m, "network") == Some(EncodeNetwork(r.interfaces))
    && Member(m, "connectivity") == Some(JArray(EncodeConnectivities(r.connectivity)))
    && Member(m, "collection_errors") == Some(JArray(EncodeStrings(r.collectionErrors)))
    && Member(m, "targets_error") == Some(EncodeNullableString(r.targetsError))
  }

  lemma EncodedKeys(r: Report)
    ensures EncodeReport(r).members.Keys == REPORT_KEYS
  {
  }

  lemma EncodedTimes(r: Report)
    ensures HasTimes(EncodeReport(r).members, r.head)
  {
  }

  lemma EncodedNames(r: Report)
    ensures HasNames(EncodeReport(r).members, r.head)
  {
  }

  lemma EncodedBody(r: Report)
    ensures HasBody(EncodeReport(r).members, r)
  {
  }

  lemma SameReportMembers(m: map<string, Json>, e: map<string, Json>, r: Report)
    requires m.Keys <= REPORT_KEYS && HasTimes(m, r.head) && HasNames(m, r.head) && HasBody(m, r)
    requires e.Keys <= REPORT_KEYS && HasTimes(e, r.head) && HasNames(e, r.head) && HasBody(e, r)
    ensures m == e
  {
    forall k | k in REPORT_KEYS ensures k in m && k in e && m[k] == e[k] {
      assert Member(m, k).Some? && Member(m, k) == Member(e, k);
    }
    assert m == e;
  }

  lemma ReportMembers(m: map<string, Json>, r: Report)
    ensures JObject(m) == EncodeReport(r) <==>
              m.Keys <= REPORT_KEYS && HasTimes(m, r.head) && HasNames(m, r.head) && HasBody(m, r)
  {
    EncodedKeys(r);
    EncodedTimes(r);
    EncodedNames(r);
    EncodedBody(r);
    if m.Keys <= REPORT_KEYS && HasTimes(m, r.head) && HasNames(m, r.head) && HasBody(m, r) {
      SameReportMembers(m, EncodeReport(r).members, r);
    }
  }

  function ReadTimes(lits: Literals, m: map<string, Json>, now: real): (r: Result<(string, int, int, int), Refusal>)
    ensures forall id, started, finished, window :: r == Success((id, started, finished, window)) <==>
              && Member(m, "report_id") == Some(JString(id)) && lits.isUuid(id)
              && Member(m, "started_at") == Some(JInt(started)) && Member(m, "finished_at") == Some(JInt(finished))
              && 0 <= started <= finished <= MAX_SAFE_INTEGER && (finished - started) * 1000 <= MAX_RUN_MS
              && -(SKEW_SECONDS as real) <= now - finished as real <= SKEW_SECONDS as real
              && Member(m, "sample_window_ms") == Some(JInt(window)) && 1 <= window <= MAX_RUN_MS
  {
    var id :- ReadUuid(lits, "report_id", Member(m, "report_id"));
    var started :- ReadInteger("started_at", Member(m, "started_at"), 0, MAX_SAFE_INTEGER);
    var finished :- ReadInteger("finished_at", Member(m, "finished_at"), 0, MAX_SAFE_INTEGER);
    if finished < started then Failure(Refusal("finished_at", BeforeStart))
    else if finished - started > MAX_RUN_MS / 1000 then Failure(Refusal("started_at", RunTooLong))
    else if Abs(now - finished as real) > SKEW_SECONDS as real then Failure(Refusal("finished_at", OutsideSkew))
    else
      var window :- ReadInteger("sample_window_ms", Member(m, "sample_window_ms"), 1, MAX_RUN_MS);
      Success((id, started, finished, window))
  }

  function Abs(x: real): real { if x < 0.0 then -x else x }

  function ReadNames(m: map<string, Json>): (r: Result<(string, string, string, string, int), Refusal>)
    ensures forall version, hostname, os, arch, uptime :: r == Success((version, hostname, os, arch, uptime)) <==>
              && Member(m, "cli_version") == Some(JString(version)) && IsText(version, 32)
              && Member(m, "hostname") == Some(JString(hostname)) && IsText(hostname, 253)
              && Member(m, "os") == Some(JString(os)) && IsText(os, 128)
              && Member(m, "arch") == Some(JString(arch)) && IsText(arch, 32)
              && Member(m, "uptime_seconds") == Some(JInt(uptime)) && 0 <= uptime <= MAX_UPTIME
  {
    var version :- ReadString("cli_version", Member(m, "cli_version"), 32);
    var hostname :- ReadString("hostname", Member(m, "hostname"), 253);
    var os :- ReadString("os", Member(m, "os"), 128);
    var arch :- ReadString("arch", Member(m, "arch"), 32);
    var uptime :- ReadInteger("uptime_seconds", Member(m, "uptime_seconds"), 0, MAX_UPTIME);
    Success((version, hostname, os, arch, uptime))
  }

  // The head of the report.
  function ReadHead(lits: Literals, m: map<string, Json>, now: real): (r: Result<Head, Refusal>)
    ensures forall h :: r == Success(h) <==> ValidHead(lits, now, h) && HasTimes(m, h) && HasNames(m, h)
  {
    var (reportId, startedAt, finishedAt, sampleWindow) :- ReadTimes(lits, m, now);
    var (cliVersion, hostname, os, arch, uptime) :- ReadNames(m);
    Success(Head(reportId, startedAt, finishedAt, sampleWindow, cliVersion, hostname, os, arch, uptime))
  }

  const CPU_KEYS: set<string> := {"model", "count", "usage_pct"}

  predicate HasCpu(m: map<string, Json>, c: Cpu) {
    && Member(m, "model") == Some(JString(c.model)) && Member(m, "count") == Some(JInt(c.count))
    && Member(m, "usage_pct") == Some(JNullable(c.usagePct))
  }

  lemma CpuMembers(m: map<string, Json>, c: Cpu)
    ensures JObject(m) == EncodeCpu(c) <==> m.Keys <= CPU_KEYS && HasCpu(m, c)
  {
    var e := EncodeCpu(c).members;
    assert e.Keys == CPU_KEYS && HasCpu(e, c);
    if m.Keys <= CPU_KEYS && HasCpu(m, c) {
      assert forall k :: k in CPU_KEYS ==> k in m && m[k] == e[k];
      assert m == e;
    }
  }

  function ReadCpu(input: Option<Json>): (r: Result<Cpu, Refusal>)
    ensures forall c :: r == Success(c) <==> ValidCpu(c) && input == Some(EncodeCpu(c))
  {
    var m :- ReadObject("cpu", input, CPU_KEYS);
    assert forall c :: input == Some(EncodeCpu(c)) <==> HasCpu(m, c) by {
      forall c ensures input == Some(EncodeCpu(c)) <==> HasCpu(m, c) { CpuMembers(m, c); }
    }
    var model :- ReadString("cpu.model", Member(m, "model"), 128);
    var count :- ReadInteger("cpu.count", Member(m, "count"), 1, 1024);
    var usage :- ReadNullableNumber("cpu.usage_pct", Member(m, "usage_pct"), 0.0, 100.0);
    Success(Cpu(model, count, usage))
  }

  const MEM_KEYS: set<string> := {"total_bytes", "available_bytes", "used_pct"}

  predicate HasMemory(m: map<string, Json>, v: Memory) {
    && Member(m, "total_bytes") == Some(JInt(v.total)) && Member(m, "available_bytes") == Some(JInt(v.available))
    && Member(m, "used_pct") == Some(JReal(v.usedPct))
  }

  lemma MemoryMembers(m: map<string, Json>, v: Memory)
    ensures JObject(m) == EncodeMemory(v) <==> m.Keys <= MEM_KEYS && HasMemory(m, v)
  {
    var e := EncodeMemory(v).members;
    assert e.Keys == MEM_KEYS && HasMemory(e, v);
    if m.Keys <= MEM_KEYS && HasMemory(m, v) {
      assert forall k :: k in MEM_KEYS ==> k in m && m[k] == e[k];
      assert m == e;
    }
  }

  function ReadMemory(input: Option<Json>): (r: Result<Memory, Refusal>)
    ensures forall v :: r == Success(v) <==> ValidMemory(v) && input == Some(EncodeMemory(v))
  {
    var m :- ReadObject("mem", input, MEM_KEYS);
    assert forall v :: input == Some(EncodeMemory(v)) <==> HasMemory(m, v) by {
      forall v ensures input == Some(EncodeMemory(v)) <==> HasMemory(m, v) { MemoryMembers(m, v); }
    }
    var total :- ReadInteger("mem.total_bytes", Member(m, "total_bytes"), 1, MAX_BYTES);
    var available :- ReadInteger("mem.available_bytes", Member(m, "available_bytes"), 0, MAX_BYTES);
    if available > total then Failure(Refusal("mem.available_bytes", ExceedsTotal))
    else
      var usedPct :- ReadNumber("mem.used_pct", Member(m, "used_pct"), 0.0, 100.0);
      Success(Memory(total, available, usedPct))
  }

  method ReadDisks(input: Option<Json>) returns (r: Result<seq<Disk>, Refusal>)
    ensures forall ds :: r == Success(ds) <==> ValidDisks(ds) && input == Some(JArray(EncodeDisks(ds)))
  {
    var items :- ReadArray("disk", input, 64);
    r := ReadAll(items, ReadDisk);
    forall ds: seq<Disk> ensures ValidDisks(ds) && items == EncodeDisks(ds) <==>
                       |ds| == |items| && forall k :: 0 <= k < |items| ==> ReadDisk(items[k]) == Success(ds[k])
    {
      if |ds| == |items| {
        assert forall k :: 0 <= k < |items| ==>
          (ReadDisk(items[k]) == Success(ds[k]) <==> ValidDisk(ds[k]) && items[k] == EncodeDisk(ds[k]));
      }
    }
  }

  method ReadErrors(input: Option<Json>) returns (r: Result<seq<string>, Refusal>)
    ensures forall es :: r == Success(es) <==> ValidErrors(es) && input == Some(JArray(EncodeStrings(es)))
  {
    var items :- ReadArray("collection_errors", input, 32);
    r := ReadAll(items, input => ReadString("collection_errors entry", Some(input), 512));
    forall es: seq<string> ensures ValidErrors(es) && items == EncodeStrings(es) <==>
                       |es| == |items| && forall k :: 0 <= k < |items| ==>
                         ReadString("collection_errors entry", Some(items[k]), 512) == Success(es[k])
    {
      if |es| == |items| {
        assert forall k :: 0 <= k < |items| ==>
          (ReadString("collection_errors entry", Some(items[k]), 512) == Success(es[k])
           <==> IsText(es[k], 512) && items[k] == JString(es[k]));
      }
    }
  }

  lemma NetworkMembers(m: map<string, Json>, interfaces: seq<Interface>)
    ensures JObject(m) == EncodeNetwork(interfaces) <==>
              m.Keys <= {"interfaces"} && Member(m, "interfaces") == Some(JArray(EncodeInterfaces(interfaces)))
  {
    var e := EncodeNetwork(interfaces).members;
    assert e.Keys == {"interfaces"};
    if m.Keys == e.Keys && m["interfaces"] == e["interfaces"] { assert m == e; }
  }

  method ReadNetwork(lits: Literals, input: Option<Json>) returns (r: Result<seq<Interface>, Refusal>)
    ensures forall v :: r == Success(v) <==> ValidInterfaces(lits, v) && input == Some(EncodeNetwork(v))
  {
    var m :- ReadObject("network", input, {"interfaces"});
    assert forall v ::
      input == Some(EncodeNetwork(v)) <==> Member(m, "interfaces") == Some(JArray(EncodeInterfaces(v))) by {
      forall v
        ensures input == Some(EncodeNetwork(v)) <==> Member(m, "interfaces") == Some(JArray(EncodeInterfaces(v))) {
        NetworkMembers(m, v);
      }
    }
    var items :- ReadArray("network.interfaces", Member(m, "interfaces"), 32);
    r := ReadInterfaces(lits, items);
  }

  method ReadInterfaces(lits: Literals, items: seq<Json>) returns (r: Result<seq<Interface>, Refusal>)
    requires |items| <= 32
    ensures forall v :: r == Success(v) <==> ValidInterfaces(lits, v) && items == EncodeInterfaces(v)
  {
    var interfaces: seq<Interface> := [];
    for i := 0 to |items|
      invariant |interfaces| == i
      invariant forall k :: 0 <= k < i ==>
        ValidInterface(lits, interfaces[k]) && items[k] == EncodeInterface(interfaces[k])
      invariant forall v :: ValidInterfaces(lits, v) && items == EncodeInterfaces(v) ==> interfaces <= v
    {
      var parsed := ReadInterface(lits, items[i]);
      forall v | ValidInterfaces(lits, v) && items == EncodeInterfaces(v) ensures parsed == Success(v[i]) {
        assert items[i] == EncodeInterface(v[i]) && ValidInterface(lits, v[i]);
      }
      if parsed.Failure? {
        return Failure(parsed.error);
      }
      interfaces := interfaces + [parsed.value];
    }
    assert items == EncodeInterfaces(interfaces);
    forall v | ValidInterfaces(lits, v) && items == EncodeInterfaces(v) ensures v == interfaces {
      assert interfaces <= v && |v| == |interfaces|;
    }
    r := Success(interfaces);
  }

  // The loop over the targets: also refuses a key it has seen before.
  method ReadDistinct<T(!new)>(items: seq<Json>, read: Json -> Result<T, Refusal>, key: T -> string)
    returns (r: Result<seq<T>, Refusal>)
    ensures forall vs :: r == Success(vs) <==>
              && |vs| == |items| && (forall k :: 0 <= k < |items| ==> read(items[k]) == Success(vs[k]))
              && forall j, k :: 0 <= j < k < |vs| ==> key(vs[j]) != key(vs[k])
  {
    var parsed: seq<T> := [];
    var seen: set<string> := {};
    for i := 0 to |items|
      invariant |parsed| == i
      invariant forall k :: 0 <= k < i ==> read(items[k]) == Success(parsed[k])
      invariant forall j, k :: 0 <= j < k < i ==> key(parsed[j]) != key(parsed[k])
      invariant forall s :: s in seen <==> exists k :: 0 <= k < i && key(parsed[k]) == s
    {
      var result :- read(items[i]);
      if key(result) in seen {
        ghost var j :| 0 <= j < i && key(parsed[j]) == key(result);
        forall vs: seq<T> | |vs| == |items| && forall k :: 0 <= k < |items| ==> read(items[k]) == Success(vs[k])
          ensures key(vs[j]) == key(vs[i])
        {
          assert read(items[j]).value == vs[j] && read(items[i]).value == vs[i];
        }
        return Failure(Refusal("connectivity.server_id", Duplicate));
      }
      seen := seen + {key(result)};
      parsed := parsed + [result];
    }
    r := Success(parsed);
    forall vs: seq<T> | |vs| == |items| && forall k :: 0 <= k < |items| ==> read(items[k]) == Success(vs[k])
        ensures vs == parsed {
      assert forall k :: 0 <= k < |items| ==> read(items[k]).value == vs[k];
    }
  }

  lemma ConnectivitiesRead(lits: Literals, items: seq<Json>, v: seq<Connectivity>)
    requires |items| <= MAX_TARGETS
    ensures ValidConnectivities(lits, v) && items == EncodeConnectivities(v) <==>
            && |v| == |items| && (forall k :: 0 <= k < |items| ==> ReadConnectivity(lits, items[k]) == Success(v[k]))
            && forall j, k :: 0 <= j < k < |v| ==> v[j].serverId != v[k].serverId
  {
    if |v| == |items| {
      forall k | 0 <= k < |items| ensures ReadConnectivity(lits, items[k]) == Success(v[k]) <==>
                                          ValidConnectivity(lits, v[k]) && items[k] == EncodeConnectivity(v[k])
      {
      }
    }
  }

  method ReadConnectivities(lits: Literals, input: Option<Json>) returns (r: Result<seq<Connectivity>, Refusal>)
    ensures forall v :: r == Success(v) <==>
              ValidConnectivities(lits, v) && input == Some(JArray(EncodeConnectivities(v)))
  {
    var items :- ReadArray("connectivity", input, MAX_TARGETS);
    r := ReadDistinct(items, input => ReadConnectivity(lits, input), (c: Connectivity) => c.serverId);
    forall v: seq<Connectivity> { ConnectivitiesRead(lits, items, v); }
  }

  function ReadTargetsError(input: Option<Json>): (r: Result<Option<string>, Refusal>)
    ensures forall e: Option<string> :: r == Success(e) <==>
              input == Some(EncodeNullableString(e)) && (e.Some? ==> IsText(e.value, 512))
  {
    if input == Some(JNull) then Success(None)
    else
      var parsed :- ReadString("targets_error", input, 512);
      Success(Some(parsed))
  }

  ghost predicate IsMachine(m: map<string, Json>, cpu: Cpu, mem: Memory, disk: seq<Disk>) {
    && ValidCpu(cpu) && Member(m, "cpu") == Some(EncodeCpu(cpu))
    && ValidMemory(mem) && Member(m, "mem") == Some(EncodeMemory(mem))
    && ValidDisks(disk) && Member(m, "disk") == Some(JArray(EncodeDisks(disk)))
  }

  ghost predicate IsObserved(
    lits: Literals, m: map<string, Json>, interfaces: seq<Interface>, connectivity: seq<Connectivity>,
    errors: seq<string>, targetsError: Option<string>) {
    && ValidInterfaces(lits, interfaces) && Member(m, "network") == Some(EncodeNetwork(interfaces))
    && ValidConnectivities(lits, connectivity)
    && Member(m, "connectivity") == Some(JArray(EncodeConnectivities(connectivity)))
    && ValidErrors(errors) && Member(m, "collection_errors") == Some(JArray(EncodeStrings(errors)))
    && (targetsError.Some? ==> IsText(targetsError.value, 512))
    && Member(m, "targets_error") == Some(EncodeNullableString(targetsError))
  }

  method ReadMachine(m: map<string, Json>) returns (r: Result<(Cpu, Memory, seq<Disk>), Refusal>)
    ensures forall cpu, mem, disk :: r == Success((cpu, mem, disk)) <==> IsMachine(m, cpu, mem, disk)
  {
    var cpu :- ReadCpu(Member(m, "cpu"));
    var mem :- ReadMemory(Member(m, "mem"));
    var disk :- ReadDisks(Member(m, "disk"));
    r := Success((cpu, mem, disk));
  }

  method ReadObservations(lits: Literals, m: map<string, Json>)
    returns (r: Result<(seq<Interface>, seq<Connectivity>, seq<string>, Option<string>), Refusal>)
    ensures forall interfaces, connectivity, errors, targetsError ::
              r == Success((interfaces, connectivity, errors, targetsError)) <==>
              IsObserved(lits, m, interfaces, connectivity, errors, targetsError)
  {
    var interfaces :- ReadNetwork(lits, Member(m, "network"));
    var connectivity :- ReadConnectivities(lits, Member(m, "connectivity"));
    var errors :- ReadErrors(Member(m, "collection_errors"));
    var targetsError :- ReadTargetsError(Member(m, "targets_error"));
    r := Success((interfaces, connectivity, errors, targetsError));
  }

  method ReadWorkstationReport(lits: Literals, m: map<string, Json>, now: real) returns (r: Result<Report, Refusal>)
    ensures forall v :: r == Success(v) <==>
              && ValidHead(lits, now, v.head) && HasTimes(m, v.head) && HasNames(m, v.head)
              && IsMachine(m, v.cpu, v.mem, v.disk)
              && IsObserved(lits, m, v.interfaces, v.connectivity, v.collectionErrors, v.targetsError)
  {
    var head :- ReadHead(lits, m, now);
    var machine :- ReadMachine(m);
    var seen :- ReadObservations(lits, m);
    r := Success(Report(head, machine.0, machine.1, machine.2, seen.0, seen.1, seen.2, seen.3));
  }

  /** Accepts exactly the encodings of valid reports, and returns the report encoded. */
  method ValidateWorkstationReport(lits: Literals, input: Json, now: real) returns (r: Result<Report, Refusal>)
    ensures forall v :: r == Success(v) <==> ValidReport(lits, now, v) && input == EncodeReport(v)
  {
    var m :- ReadObject("report", Some(input), REPORT_KEYS);
    assert forall v :: input == EncodeReport(v) <==> HasTimes(m, v.head) && HasNames(m, v.head) && HasBody(m, v) by {
      forall v ensures input == EncodeReport(v) <==> HasTimes(m, v.head) && HasNames(m, v.head) && HasBody(m, v) {
        ReportMembers(m, v);
      }
    }
    r := ReadWorkstationReport(lits, m, now);
  }

  /** Validation is a fixpoint: what was accepted is accepted again, unchanged. */
  method ValidateTwice(lits: Literals, input: Json, now: real)
    returns (first: Result<Report, Refusal>, second: Result<Report, Refusal>)
    ensures first.Success? ==> second == first
  {
    first := ValidateWorkstationReport(lits, input, now);
    match first
    case Failure(_) => second := first;
    case Success(v) => second := ValidateWorkstationReport(lits, EncodeReport(v), now);
  }
}
