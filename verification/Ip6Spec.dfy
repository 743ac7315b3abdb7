// The text form of IPv6 addresses (section 2.2 of RFC 4291) as VAT prints and parses it.
module Ip6Spec {
  import opened Base

  // The eight 16-bit groups of an address, in host byte order.
  const GROUPS: nat := 8
  const QUAD_RANGE: nat := 0x1_0000

  ghost predicate IsAddress(a: seq<nat>) {
    |a| == GROUPS && forall i :: 0 <= i < GROUPS ==> a[i] < QUAD_RANGE
  }

  // ------------------------------------------------------------------------------------------
  // Printing

  // format_ip6_address, first loop: the run chosen so far, and the run being counted.
  datatype Scan = Scan(iMax: nat, maxN: nat, iFirst: nat, n: nat)

  function ScanStep(a: seq<nat>, i: nat, s: Scan): Scan
    requires i < |a|
  {
    var isZero := a[i] == 0;
    var first := if isZero && s.iFirst >= GROUPS then i else s.iFirst;
    var n := (if isZero && s.iFirst >= GROUPS then 0 else s.n) + (if isZero then 1 else 0);
    if n > s.maxN && (!isZero || i + 1 >= GROUPS)
    then Scan(first, n, GROUPS, 0)
    else Scan(s.iMax, s.maxN, first, n)
  }

  function Scanned(a: seq<nat>, i: nat): Scan
    requires i <= |a|
  {
    if i == 0 then Scan(GROUPS, 0, GROUPS, 0) else ScanStep(a, i - 1, Scanned(a, i - 1))
  }

  function Digit(d: nat): char
    requires d < 16
  {
    if d < 10 then ('0' as int + d) as char else ('a' as int + d - 10) as char
  }

  // %x
  function Hex(x: nat): (r: string)
    ensures r != []
  {
    if x < 16 then [Digit(x)] else Hex(x / 16) + [Digit(x % 16)]
  }

  // Second loop, from group i on.
  function PrintFrom(a: seq<nat>, s: Scan, i: nat, afterDouble: bool): string
    decreases |a| - i
  {
    if i >= |a| then ""
    else if i == s.iMax && s.maxN > 1 then
      "::" + PrintFrom(a, s, i + s.maxN, true)
    else
      (if afterDouble || i == 0 then "" else ":") + Hex(a[i]) + PrintFrom(a, s, i + 1, false)
  }

  // format_ip6_address, and vat_json_format_ip6_address.
  function Format(a: seq<nat>): string
    requires |a| == GROUPS
  {
    PrintFrom(a, Scanned(a, GROUPS), 0, false)
  }

  // ------------------------------------------------------------------------------------------
  // Parsing

  // unformat_ip6_address: complete groups, the group being read, colons just seen, and how many
  // groups came before "::" (GROUPS if it has not come).
  datatype Reader = Reader(quads: seq<nat>, quad: nat, digits: nat, colons: nat, double: nat)

  datatype Outcome = Go(s: Reader) | Stop | Reject

  const FRESH: Reader := Reader([], 0, 0, 0, GROUPS)

  // A hexadecimal digit's value, or 16.
  function DigitValue(c: char): (d: nat)
    ensures d <= 16
  {
    if '0' <= c <= '9' then c as int - '0' as int
    else if 'a' <= c <= 'f' then c as int + 10 - 'a' as int
    else if 'A' <= c <= 'F' then c as int + 10 - 'A' as int
    else 16
  }

  // Its loop body.
  function ReadChar(s: Reader, c: char): Outcome {
    var d := DigitValue(c);
    if d == 16 && !(c == ':' && s.colons < 2) then Stop
    else if |s.quads| >= GROUPS then Reject
    else if d < 16 then
      if s.digits >= 4 then Reject
      else Go(s.(quad := s.quad * 16 + d, digits := s.digits + 1, colons := 0))
    else if s.colons == 1 && s.double < GROUPS then Reject
    else
      var t := s.(colons := s.colons + 1, double := if s.colons == 1 then |s.quads| else s.double);
      Go(if t.digits > 0 then t.(quads := t.quads + [t.quad], quad := 0, digits := 0) else t)
  }

  // The loop: None where it rejects.
  function Read(s: Reader, text: string): Option<Reader>
    decreases |text|
  {
    if text == [] then Some(s)
    else
      match ReadChar(s, text[0])
      case Stop => Some(s)
      case Reject => None
      case Go(t) => Read(t, text[1..])
  }

  function Zeros(n: nat): (r: seq<nat>)
    ensures |r| == n
  {
    seq(n, i => 0)
  }

  // The groups before "::", as many zeros as are missing, and the groups after it.
  function Expand(quads: seq<nat>, double: nat): (r: seq<nat>) {
    if double < GROUPS && double <= |quads| <= GROUPS
    then quads[..double] + Zeros(GROUPS - |quads|) + quads[double..]
    else quads
  }

  function Finish(s: Reader): Option<seq<nat>> {
    var quads := Expand(if s.digits > 0 then s.quads + [s.quad] else s.quads, s.double);
    if |quads| < GROUPS then None else Some(quads)
  }

  function Parse(text: string): Option<seq<nat>> {
    match Read(FRESH, text)
    case None => None
    case Some(s) => Finish(s)
  }

  // ------------------------------------------------------------------------------------------
  // The text form itself

  // x:x:...:x
  function Colons(groups: seq<string>): string {
    if groups == [] then ""
    else if |groups| == 1 then groups[0]
    else groups[0] + ":" + Colons(groups[1..])
  }

  ghost predicate IsGroup(g: string) {
    1 <= |g| <= 4 && forall i :: 0 <= i < |g| ==> DigitValue(g[i]) < 16
  }

  ghost predicate AreGroups(gs: seq<string>) {
    forall i :: 0 <= i < |gs| ==> IsGroup(gs[i])
  }

  // Forms 1 and 2 of section 2.2 of RFC 4291.
  ghost predicate IsFull(text: string, gs: seq<string>) {
    AreGroups(gs) && |gs| == GROUPS && text == Colons(gs)
  }

  ghost predicate IsCompressed(text: string, left: seq<string>, right: seq<string>) {
    AreGroups(left) && AreGroups(right) && |left| + |right| < GROUPS
    && text == Colons(left) + "::" + Colons(right)
  }

  function Value(g: string): nat {
    if g == [] then 0 else Value(g[..|g| - 1]) * 16 + DigitValue(g[|g| - 1])
  }

  // The groups a text of digits and colons has: those a colon ends, and the one still open.
  function Split(p: string): (r: (seq<string>, string)) {
    if p == [] then ([], "")
    else
      var (gs, open) := Split(p[..|p| - 1]);
      var c := p[|p| - 1];
      if DigitValue(c) < 16 then (gs, open + [c])
      else (if open == "" then gs else gs + [open], "")
  }

  function Groups(p: string): seq<string> {
    var (gs, open) := Split(p);
    if open == "" then gs else gs + [open]
  }

  function Values(gs: seq<string>): (r: seq<nat>)
    ensures |r| == |gs|
  {
    seq(|gs|, i requires 0 <= i < |gs| => Value(gs[i]))
  }

  function Hexes(a: seq<nat>): seq<string> {
    seq(|a|, i requires 0 <= i < |a| => Hex(a[i]))
  }
}
