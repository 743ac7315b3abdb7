// The printer and the parser as loops over counters, a text and an array of eight groups.
module Ip6Text {
  import opened Base
  import opened Ip6Spec
  import opened Ip6Exact

  method FormatIp6Address(a: seq<nat>) returns (text: string)
    requires |a| == GROUPS
    ensures text == Format(a)
  {
    hide PrintFrom, Scanned, Hex;
    ScannedNext(a, 0);
    var iMax: nat, maxN: nat, iFirst: nat, n: nat := GROUPS, 0, GROUPS, 0;
    var i: nat := 0;
    while i < GROUPS
      invariant 0 <= i <= GROUPS && Scan(iMax, maxN, iFirst, n) == Scanned(a, i)
    {
      ScannedNext(a, i);
      var isZero := if a[i] == 0 then 1 else 0;
      if isZero == 1 && iFirst >= GROUPS {
        iFirst, n := i, 0;
      }
      n := n + isZero;
      if (isZero == 0 && n > maxN) || (i + 1 >= GROUPS && n > maxN) {
        iMax, maxN, iFirst, n := iFirst, n, GROUPS, 0;
      }
      i := i + 1;
    }
    ghost var s := Scanned(a, GROUPS);
    var lastDoubleColon := false;
    text, i := "", 0;
    assert text + PrintFrom(a, s, 0, false) == PrintFrom(a, s, 0, false);
    while i < GROUPS
      invariant 0 <= i && text + PrintFrom(a, s, i, lastDoubleColon) == PrintFrom(a, s, 0, false)
    {
      PrintStep(a, s, i, lastDoubleColon);
      if i == iMax && maxN > 1 {
        Appended(text, "::", PrintFrom(a, s, i + maxN, true));
        text := text + "::";
        i := i + (maxN - 1);
        lastDoubleColon := true;
      } else {
        var sep := if lastDoubleColon || i == 0 then "" else ":";
        Appended(text, sep + Hex(a[i]), PrintFrom(a, s, i + 1, false));
        text := text + (sep + Hex(a[i]));
        lastDoubleColon := false;
      }
      i := i + 1;
    }
    PrintEnd(a, s, i, lastDoubleColon);
    assert text + "" == text;
  }

  lemma PrintEnd(a: seq<nat>, s: Scan, i: nat, afterDouble: bool)
    requires i >= |a|
    ensures PrintFrom(a, s, i, afterDouble) == ""
  {
  }

  lemma PrintStep(a: seq<nat>, s: Scan, i: nat, afterDouble: bool)
    requires i < |a|
    ensures PrintFrom(a, s, i, afterDouble)
            == if i == s.iMax && s.maxN > 1 then "::" + PrintFrom(a, s, i + s.maxN, true)
               else (if afterDouble || i == 0 then "" else ":") + Hex(a[i]) + PrintFrom(a, s, i + 1, false)
  {
    hide Hex;
  }

  lemma ScannedNext(a: seq<nat>, i: nat)
    requires i < |a|
    ensures Scanned(a, 0) == Scan(GROUPS, 0, GROUPS, 0) && Scanned(a, i + 1) == ScanStep(a, i, Scanned(a, i))
  {
  }

  lemma Appended(a: string, b: string, c: string)
    ensures a + (b + c) == (a + b) + c
  {
  }

  lemma Pow16Next(n: nat)
    ensures Pow16(0) == 1 && Pow16(n + 1) == 16 * Pow16(n)
  {
  }

  // unformat_ip6_address: the address, or None where it returns 0.
  method UnformatIp6Address(text: string) returns (result: Option<seq<nat>>)
    ensures result == Parse(text)
  {
    hide Read, Pow16, Finish, DigitValue;
    var hexQuads := new nat[GROUPS];
    var nHexQuads: nat, hexQuad: nat, nHexDigits: nat, nColon: nat, doubleColonIndex: nat := 0, 0, 0, 0, GROUPS;
    var i := 0;
    assert text[0..] == text && hexQuads[..0] == [];
    Pow16Next(0);
    while i < |text|
      invariant 0 <= i <= |text| && nHexQuads <= GROUPS
      invariant nHexDigits > 0 ==> nHexQuads < GROUPS
      invariant nHexDigits <= 4 && hexQuad < Pow16(nHexDigits)
      invariant doubleColonIndex <= nHexQuads || doubleColonIndex == GROUPS
      invariant Read(FRESH, text)
             == Read(Reader(hexQuads[..nHexQuads], hexQuad, nHexDigits, nColon, doubleColonIndex), text[i..])
      decreases |text| - i
    {
      ghost var s := Reader(hexQuads[..nHexQuads], hexQuad, nHexDigits, nColon, doubleColonIndex);
      ReadNext(s, text, i);
      Pow16Next(nHexDigits);
      var c := text[i];
      var hexDigit := DigitValue(c);
      if hexDigit == 16 {
        if c == ':' && nColon < 2 {
          nColon := nColon + 1;
        } else {
          break;
        }
      }
      if nHexQuads >= GROUPS {
        return None;
      }
      if hexDigit < 16 {
        hexQuad := hexQuad * 16 + hexDigit;
        if nHexDigits >= 4 {
          return None;
        }
        nColon := 0;
        nHexDigits := nHexDigits + 1;
      }
      if nColon == 2 {
        if doubleColonIndex < GROUPS {
          return None;
        }
        doubleColonIndex := nHexQuads;
      }
      if nColon > 0 && nHexDigits > 0 {
        nHexQuads := StoreQuad(hexQuads, nHexQuads, hexQuad, nHexDigits);
        hexQuad, nHexDigits := 0, 0;
        Pow16Next(0);
      }
      i := i + 1;
    }
    assert text[|text|..] == [];
    ReadNone(Reader(hexQuads[..nHexQuads], hexQuad, nHexDigits, nColon, doubleColonIndex));
    result := FinishQuads(hexQuads, nHexQuads, hexQuad, nHexDigits, nColon, doubleColonIndex);
  }

  // ... a group that a colon ends.
  method StoreQuad(hexQuads: array<nat>, nHexQuads: nat, hexQuad: nat, nHexDigits: nat) returns (n: nat)
    requires nHexQuads < GROUPS == hexQuads.Length && nHexDigits <= 4 && hexQuad < Pow16(nHexDigits)
    modifies hexQuads
    ensures n == nHexQuads + 1 && hexQuads[..n] == old(hexQuads[..nHexQuads]) + [hexQuad]
  {
    QuadFits(nHexDigits);
    assert hexQuad < QUAD_RANGE;
    hexQuads[nHexQuads] := hexQuad;
    n := nHexQuads + 1;
  }

  // ... after its loop.
  method FinishQuads(hexQuads: array<nat>, nHexQuads: nat, hexQuad: nat, nHexDigits: nat,
                     ghost nColon: nat, doubleColonIndex: nat) returns (result: Option<seq<nat>>)
    requires nHexQuads <= GROUPS == hexQuads.Length && (nHexDigits > 0 ==> nHexQuads < GROUPS)
    requires doubleColonIndex <= nHexQuads || doubleColonIndex == GROUPS
    modifies hexQuads
    ensures result == Finish(Reader(old(hexQuads[..nHexQuads]), hexQuad, nHexDigits, nColon, doubleColonIndex))
  {
    hide Expand;
    var n := nHexQuads;
    if nHexDigits > 0 {
      hexQuads[n] := hexQuad;
      n := n + 1;
    }
    assert hexQuads[..n] == old(hexQuads[..nHexQuads]) + if nHexDigits > 0 then [hexQuad] else [];
    n := ExpandInPlace(hexQuads, n, doubleColonIndex);
    if n < GROUPS {
      return None;
    }
    assert hexQuads[..] == hexQuads[..n];
    result := Some(hexQuads[..]);
  }

  // ... its end: "::" is expanded in place, the groups after it moved up from the last one down.
  method ExpandInPlace(hexQuads: array<nat>, count: nat, double: nat) returns (n: nat)
    requires hexQuads.Length == GROUPS && count <= GROUPS && (double <= count || double == GROUPS)
    modifies hexQuads
    ensures n <= GROUPS && hexQuads[..n] == Expand(old(hexQuads[..count]), double)
  {
    hide Expand;
    ghost var quads := hexQuads[..count];
    n := count;
    if double < GROUPS {
      var nZero := GROUPS - count;
      MoveUp(hexQuads, count, double, nZero);
      ClearGroups(hexQuads, double, nZero);
      n := GROUPS;
      ExpandedIs(quads, double, hexQuads[..n]);
    } else {
      Unexpanded(quads, double);
    }
  }

  // ... the groups from `double` on, each nZero places up.
  method MoveUp(hexQuads: array<nat>, count: nat, double: nat, nZero: nat)
    requires double <= count && count + nZero == hexQuads.Length
    modifies hexQuads
    ensures forall j :: 0 <= j < double ==> hexQuads[j] == old(hexQuads[j])
    ensures forall j :: double + nZero <= j < hexQuads.Length ==> hexQuads[j] == old(hexQuads[j - nZero])
  {
    var i: int := count - 1;
    while i >= double
      invariant double - 1 <= i < count
      invariant forall j :: 0 <= j <= i ==> hexQuads[j] == old(hexQuads[j])
      invariant forall j :: nZero + i < j < hexQuads.Length ==> hexQuads[j] == old(hexQuads[j - nZero])
    {
      hexQuads[nZero + i] := hexQuads[i];
      i := i - 1;
    }
  }

  // ... and nZero zeros in the gap.
  method ClearGroups(hexQuads: array<nat>, double: nat, nZero: nat)
    requires double + nZero <= hexQuads.Length
    modifies hexQuads
    ensures forall j :: 0 <= j < hexQuads.Length ==>
              hexQuads[j] == if double <= j < double + nZero then 0 else old(hexQuads[j])
  {
    for i := 0 to nZero
      invariant forall j :: 0 <= j < hexQuads.Length ==>
                  hexQuads[j] == if double <= j < double + i then 0 else old(hexQuads[j])
    {
      hexQuads[double + i] := 0;
    }
  }

  lemma ExpandedIs(quads: seq<nat>, double: nat, now: seq<nat>)
    requires double <= |quads| <= GROUPS == |now| && double < GROUPS
    requires forall j :: 0 <= j < double ==> now[j] == quads[j]
    requires forall j :: double <= j < double + (GROUPS - |quads|) ==> now[j] == 0
    requires forall j :: double + (GROUPS - |quads|) <= j < GROUPS ==> now[j] == quads[j - (GROUPS - |quads|)]
    ensures now == Expand(quads, double)
  {
  }

  lemma Unexpanded(quads: seq<nat>, double: nat)
    requires double >= GROUPS
    ensures Expand(quads, double) == quads
  {
  }
}
