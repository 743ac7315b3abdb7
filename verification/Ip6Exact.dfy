// What the parser makes of text in the forms of RFC 4291, and of the printer's text.
module Ip6Exact {
  import opened Base
  import opened Ip6Spec

  // ------------------------------------------------------------------------------------------
  // Reading

  // The loop consumes t from state s, and is in state u then.
  ghost predicate Reaches(s: Reader, t: string, u: Reader)
    decreases |t|
  {
    if t == [] then s == u else ReadChar(s, t[0]).Go? && Reaches(ReadChar(s, t[0]).s, t[1..], u)
  }

  lemma {:induction false} ReachesThen(s: Reader, t: string, u: Reader, w: string, v: Reader)
    requires Reaches(s, t, u) && Reaches(u, w, v)
    ensures Reaches(s, t + w, v)
    decreases |t|
  {
    if t == [] {
      assert t + w == w;
    } else {
      assert (t + w)[1..] == t[1..] + w && (t + w)[0] == t[0];
      ReachesThen(ReadChar(s, t[0]).s, t[1..], u, w, v);
    }
  }

  lemma {:induction false} ReachesRead(s: Reader, t: string, u: Reader)
    requires Reaches(s, t, u)
    ensures Read(s, t) == Some(u)
    decreases |t|
  {
    if t != [] { ReachesRead(ReadChar(s, t[0]).s, t[1..], u); }
  }

  lemma ReachesOne(s: Reader, c: char)
    requires ReadChar(s, c).Go?
    ensures Reaches(s, [c], ReadChar(s, c).s)
  {
    assert [c][1..] == [];
  }

  // One group, where none is being read.
  lemma {:induction false} GroupRead(s: Reader, g: string, k: nat)
    requires IsGroup(g) && s.digits == 0 && s.quad == 0 && |s.quads| < GROUPS && k <= |g|
    ensures Reaches(s, g[..k], s.(quad := Value(g[..k]), digits := k, colons := if k == 0 then s.colons else 0))
    decreases k
  {
    if k > 0 {
      GroupRead(s, g, k - 1);
      assert g[..k] == g[..k - 1] + [g[k - 1]];
      var u := s.(quad := Value(g[..k - 1]), digits := k - 1, colons := if k == 1 then s.colons else 0);
      ReachesOne(u, g[k - 1]);
      ReachesThen(s, g[..k - 1], u, [g[k - 1]], ReadChar(u, g[k - 1]).s);
    }
  }

  // Having read the groups but for pushing the last one.
  function After(s: Reader, gs: seq<string>): Reader
    requires gs != []
  {
    var k := |gs| - 1;
    s.(quads := s.quads + Values(gs[..k]), quad := Value(gs[k]), digits := |gs[k]|, colons := 0)
  }

  lemma {:induction false} GroupsRead(s: Reader, gs: seq<string>)
    requires AreGroups(gs) && gs != [] && |s.quads| + |gs| <= GROUPS && s.digits == 0 && s.quad == 0
    ensures Reaches(s, Colons(gs), After(s, gs))
    decreases |gs|
  {
    var g, k := gs[0], |gs| - 1;
    GroupRead(s, g, |g|);
    assert g[..|g|] == g;
    var u := s.(quad := Value(g), digits := |g|, colons := 0);
    if k == 0 {
      assert s.quads + Values(gs[..0]) == s.quads;
    } else {
      var v := ReadChar(u, ':').s;
      ReachesOne(u, ':');
      ReachesThen(s, g, u, ":", v);
      GroupsRead(v, gs[1..]);
      ReachesThen(s, g + ":", v, Colons(gs[1..]), After(v, gs[1..]));
      assert s.quads + Values(gs[..k]) == (s.quads + [Value(g)]) + Values(gs[1..][..k - 1]);
      assert g + ":" + Colons(gs[1..]) == Colons(gs);
    }
  }

  // The state after "::" where the groups before it are complete.
  lemma DoubleRead(s: Reader, quads: seq<nat>)
    requires s.double == GROUPS && |quads| < GROUPS && s.colons == 0
    requires if s.digits > 0 then s.quads + [s.quad] == quads else s.quads == quads && s.quad == 0
    ensures Reaches(s, "::", Reader(quads, 0, 0, 2, |quads|))
  {
    var u := ReadChar(s, ':').s;
    ReachesOne(s, ':');
    ReachesOne(u, ':');
    ReachesThen(s, ":", u, ":", Reader(quads, 0, 0, 2, |quads|));
    assert ":" + ":" == "::";
  }

  lemma ValuesSnoc(gs: seq<string>)
    requires gs != []
    ensures Values(gs) == Values(gs[..|gs| - 1]) + [Value(gs[|gs| - 1])]
  {
  }

  // A full address parses to its groups' values.
  lemma ParseFull(text: string, gs: seq<string>)
    requires IsFull(text, gs)
    ensures Parse(text) == Some(Values(gs))
  {
    GroupsRead(FRESH, gs);
    ReachesRead(FRESH, text, After(FRESH, gs));
    ValuesSnoc(gs);
    assert [] + Values(gs[..GROUPS - 1]) == Values(gs[..GROUPS - 1]);
  }

  // A compressed address parses to the values before "::", zeros for the missing groups, and the
  // values after it: eight in all.
  lemma ParseCompressed(text: string, left: seq<string>, right: seq<string>)
    requires IsCompressed(text, left, right)
    ensures Parse(text) == Some(Values(left) + Zeros(GROUPS - |left| - |right|) + Values(right))
  {
    var u := if left == [] then FRESH else After(FRESH, left);
    if left != [] {
      GroupsRead(FRESH, left);
      ValuesSnoc(left);
      assert [] + Values(left[..|left| - 1]) == Values(left[..|left| - 1]);
    }
    var v := Reader(Values(left), 0, 0, 2, |left|);
    DoubleRead(u, Values(left));
    ReachesThen(FRESH, Colons(left), u, "::", v);
    var w := if right == [] then v else After(v, right);
    if right != [] { GroupsRead(v, right); }
    ReachesThen(FRESH, Colons(left) + "::", v, Colons(right), w);
    ReachesRead(FRESH, text, w);
    CompressedFinish(left, right, w);
  }

  lemma ExpandAt(l: seq<nat>, r: seq<nat>)
    requires |l| + |r| < GROUPS
    ensures Expand(l + r, |l|) == l + Zeros(GROUPS - |l| - |r|) + r
  {
    hide Zeros;
    assert (l + r)[..|l|] == l && (l + r)[|l|..] == r;
  }

  lemma CompressedFinish(left: seq<string>, right: seq<string>, w: Reader)
    requires |left| + |right| < GROUPS && AreGroups(right)
    requires w == if right == [] then Reader(Values(left), 0, 0, 2, |left|)
                  else After(Reader(Values(left), 0, 0, 2, |left|), right)
    ensures Finish(w) == Some(Values(left) + Zeros(GROUPS - |left| - |right|) + Values(right))
  {
    hide Value, Values, Zeros, Expand;
    ExpandAt(Values(left), Values(right));
    if right == [] {
      assert Values(right) == [] && Values(left) + [] == Values(left);
    } else {
      var k := |right| - 1;
      ValuesSnoc(right);
      assert (Values(left) + Values(right[..k])) + [Value(right[k])] == Values(left) + Values(right);
    }
  }

  // Text after the first character that is neither a digit nor a colon makes no difference.
  lemma {:induction false} ReadStops(s: Reader, t: string, c: char, rest: string)
    requires DigitValue(c) == 16 && c != ':'
    ensures Read(s, t + [c] + rest) == Read(s, t)
    decreases |t|
  {
    var u := t + [c] + rest;
    if t == [] {
      assert u[0] == c;
    } else {
      assert u[0] == t[0] && u[1..] == t[1..] + [c] + rest;
      if ReadChar(s, t[0]).Go? { ReadStops(ReadChar(s, t[0]).s, t[1..], c, rest); }
    }
  }

  lemma ParseStops(t: string, c: char, rest: string)
    requires DigitValue(c) == 16 && c != ':'
    ensures Parse(t + [c] + rest) == Parse(t)
  {
    hide Read;
    ReadStops(FRESH, t, c, rest);
  }

  // Whatever the text, an accepted address is eight groups of 16 bits: those read before "::", zeros,
  // and those read after it.
  lemma {:induction false} ReadFits(s: Reader, text: string)
    requires ReaderOk(s) && Read(s, text).Some?
    ensures ReaderOk(Read(s, text).value)
    decreases |text|
  {
    if text != [] && ReadChar(s, text[0]).Go? {
      assert Pow16(s.digits + 1) == 16 * Pow16(s.digits);
      QuadFits(s.digits);
      ReadFits(ReadChar(s, text[0]).s, text[1..]);
    }
  }

  ghost predicate ReaderOk(s: Reader) {
    && |s.quads| <= GROUPS && (s.digits > 0 ==> |s.quads| < GROUPS) && s.digits <= 4 && s.quad < Pow16(s.digits)
    && (s.double <= |s.quads| || s.double == GROUPS) && forall i :: 0 <= i < |s.quads| ==> s.quads[i] < QUAD_RANGE
  }

  lemma QuadFits(digits: nat)
    requires digits <= 4
    ensures Pow16(digits) <= QUAD_RANGE
  {
    assert Pow16(1) == 16 && Pow16(2) == 0x100 && Pow16(3) == 0x1000 && Pow16(4) == 0x1_0000;
  }

  lemma ReadNext(s: Reader, text: string, i: nat)
    requires i < |text|
    ensures Read(s, text[i..]) == match ReadChar(s, text[i])
                                  case Stop => Some(s)
                                  case Reject => None
                                  case Go(t) => Read(t, text[i + 1..])
  {
    assert text[i..][0] == text[i] && text[i..][1..] == text[i + 1..];
  }

  // An accepted address is eight 16-bit groups.
  lemma ExpandFits(quads: seq<nat>, double: nat)
    requires |quads| <= GROUPS && forall i :: 0 <= i < |quads| ==> quads[i] < QUAD_RANGE
    ensures |Expand(quads, double)| <= GROUPS
    ensures forall i :: 0 <= i < |Expand(quads, double)| ==> Expand(quads, double)[i] < QUAD_RANGE
  {
  }

  lemma ParseFits(text: string)
    requires Parse(text).Some?
    ensures IsAddress(Parse(text).value)
  {
    hide Read, Expand, Pow16;
    ReadFits(FRESH, text) by { Pow16Zero(); }
    var s := Read(FRESH, text).value;
    QuadFits(s.digits);
    ExpandFits(if s.digits > 0 then s.quads + [s.quad] else s.quads, s.double);
  }

  lemma Pow16Zero()
    ensures Pow16(0) == 1
  {
  }

  // ------------------------------------------------------------------------------------------
  // What any accepted text means

  // Two colons from place j on.
  predicate DoubleAt(p: string, j: nat) {
    j + 2 <= |p| && p[j] == ':' && p[j + 1] == ':'
  }

  // "::" is where `double` says and nowhere else; `colons` counts those at the end.
  ghost predicate Form(s: Reader, p: string, double: Option<nat>) {
    && (forall j: nat :: DoubleAt(p, j) <==> double == Some(j))
    && (if double == None then s.double == GROUPS else s.double < GROUPS)
    && s.colons <= 2 && (s.colons == 2 ==> |p| >= 2 && DoubleAt(p, |p| - 2))
    && (s.colons > 0 <==> p != "" && p[|p| - 1] == ':')
    && (s.colons == 1 ==> |p| < 2 || !DoubleAt(p, |p| - 2))
  }

  // The parser does not go on at place n: the text is over, or there is no digit, and no colon but after "::".
  ghost predicate EndsAt(text: string, n: nat) {
    n <= |text| && (n < |text| ==> DigitValue(text[n]) == 16 && (text[n] == ':' ==> 2 <= n && DoubleAt(text, n - 2)))
  }

  // Having read p, with "::" at the place `double` if it came: the groups so far are those of p.
  ghost predicate Means(s: Reader, p: string, double: Option<nat>) {
    var (gs, open) := Split(p);
    && s.quads == Values(gs) && s.quad == Value(open) && s.digits == |open| <= 4 && AreGroups(gs)
    && (open != "" ==> IsGroup(open))
    && (s.colons > 0 ==> p != "" && p[|p| - 1] == ':')
    && (forall i :: 0 <= i < |p| ==> DigitValue(p[i]) < 16 || p[i] == ':')
    && match double
       case None => s.double == GROUPS
       case Some(k) => s.double < GROUPS && k + 2 <= |p| && p[k..k + 2] == "::" && s.double == |Groups(p[..k])|
  }

  lemma MeansDigit(s: Reader, p: string, double: Option<nat>, c: char)
    requires Means(s, p, double) && DigitValue(c) < 16 && ReadChar(s, c).Go?
    ensures Means(ReadChar(s, c).s, p + [c], double)
  {
    var q := p + [c];
    assert q[..|q| - 1] == p;
    var open := Split(p).1;
    assert Split(q) == (Split(p).0, open + [c]);
    assert (open + [c])[..|open|] == open;
    if double.Some? {
      var k := double.value;
      assert q[..k] == p[..k] && q[k..k + 2] == p[k..k + 2];
    }
  }

  lemma MeansColon(s: Reader, p: string, double: Option<nat>)
    requires Means(s, p, double) && ReadChar(s, ':').Go? && s.colons == 0
    ensures Means(ReadChar(s, ':').s, p + ":", double)
  {
    var q := p + ":";
    assert q[..|q| - 1] == p;
    var (gs, open) := Split(p);
    assert Split(q) == (if open == "" then gs else gs + [open], "");
    assert open != "" ==> Values(gs + [open]) == Values(gs) + [Value(open)];
    if double.Some? {
      var k := double.value;
      assert q[..k] == p[..k] && q[k..k + 2] == p[k..k + 2];
    }
  }

  // The second colon in a row.
  lemma MeansDouble(s: Reader, p: string)
    requires Means(s, p, None) && ReadChar(s, ':').Go? && s.colons == 1
    ensures Means(ReadChar(s, ':').s, p + ":", Some(|p| - 1))
  {
    var q, k := p + ":", |p| - 1;
    assert q[..|q| - 1] == p && q[k..k + 2] == "::" && q[..k] == p[..k];
    var (gs, open) := Split(p);
    assert open == "" && gs == Groups(p[..k]);
    assert Split(q) == (gs, "");
  }

  lemma MeansNext(s: Reader, p: string, double: Option<nat>, c: char) returns (next: Option<nat>)
    requires Means(s, p, double) && ReadChar(s, c).Go?
    ensures Means(ReadChar(s, c).s, p + [c], next)
    ensures next == if c == ':' && s.colons == 1 then Some(|p| - 1) else double
  {
    hide Split, Groups, Values, Value;
    next := double;
    if DigitValue(c) < 16 {
      MeansDigit(s, p, double, c);
    } else if s.colons == 0 {
      MeansColon(s, p, double);
    } else {
      MeansDouble(s, p);
      next := Some(|p| - 1);
    }
  }

  lemma FormNext(s: Reader, p: string, double: Option<nat>, c: char, next: Option<nat>)
    requires Form(s, p, double) && ReadChar(s, c).Go? && |s.quads| <= GROUPS
    requires next == if c == ':' && s.colons == 1 then Some(|p| - 1) else double
    ensures Form(ReadChar(s, c).s, p + [c], next)
  {
    forall j: nat ensures DoubleAt(p + [c], j) <==> next == Some(j) {
      DoubleNext(p, c, j);
    }
  }

  lemma DoubleNext(p: string, c: char, j: nat)
    ensures DoubleAt(p + [c], j) <==>
            DoubleAt(p, j) || (c == ':' && p != "" && p[|p| - 1] == ':' && j == |p| - 1)
  {
  }

  lemma {:induction false} ReadMeans(s: Reader, text: string, n: nat, double: Option<nat>)
    returns (m: nat, double': Option<nat>)
    requires n <= |text| && Means(s, text[..n], double) && Read(s, text[n..]).Some?
    requires Form(s, text[..n], double) && |s.quads| <= GROUPS
    ensures m <= |text| && Means(Read(s, text[n..]).value, text[..m], double')
    ensures EndsAt(text, m) && Form(Read(s, text[n..]).value, text[..m], double')
    decreases |text| - n
  {
    hide Means, Form, ReadChar, Read;
    m, double' := n, double;
    if n < |text| {
      ReadNext(s, text, n);
      if ReadChar(s, text[n]).Go? {
        assert text[..n + 1] == text[..n] + [text[n]];
        var next := MeansNext(s, text[..n], double, text[n]);
        FormNext(s, text[..n], double, text[n], next);
        FewQuads(s, text[n]);
        m, double' := ReadMeans(ReadChar(s, text[n]).s, text, n + 1, next);
      } else {
        StopsAt(s, text, n, double);
      }
    } else {
      assert text[n..] == "";
      ReadNone(s);
    }
  }

  lemma FewQuads(s: Reader, c: char)
    requires |s.quads| <= GROUPS && ReadChar(s, c).Go?
    ensures |ReadChar(s, c).s.quads| <= GROUPS
  {
  }

  lemma StopsAt(s: Reader, text: string, n: nat, double: Option<nat>)
    requires n < |text| && Form(s, text[..n], double) && ReadChar(s, text[n]).Stop?
    ensures EndsAt(text, n)
  {
    if text[n] == ':' { assert DoubleAt(text[..n], n - 2); }
  }

  lemma ReadNone(s: Reader)
    ensures Read(s, "") == Some(s)
  {
  }

  // A text's groups are those on either side of a colon.
  lemma {:induction false} SplitAt(p: string, q: string)
    ensures Split(p + ":" + q) == (Groups(p) + Split(q).0, Split(q).1)
    decreases |q|
  {
    var t := p + ":" + q;
    if q == "" {
      assert t[..|t| - 1] == p && Groups(p) + [] == Groups(p);
    } else {
      var r := q[..|q| - 1];
      SplitAt(p, r);
      assert t[..|t| - 1] == p + ":" + r && t[|t| - 1] == q[|q| - 1];
      var (gs, open) := Split(r);
      assert Groups(p) + (gs + [open]) == (Groups(p) + gs) + [open];
    }
  }

  lemma GroupsAt(p: string, k: nat)
    requires k + 2 <= |p| && p[k..k + 2] == "::"
    ensures Groups(p) == Groups(p[..k]) + Groups(p[k + 2..])
  {
    var l, r := p[..k], p[k + 2..];
    assert p == l + ":" + (":" + r);
    SplitAt(l, ":" + r);
    assert ":" + r == "" + ":" + r;
    SplitAt("", r);
    assert [] + Split(r).0 == Split(r).0;
    var (gs, open) := Split(r);
    assert Groups(l) + (gs + [open]) == (Groups(l) + gs) + [open];
  }

  // Whatever the text, an address accepted is what its digits and colons up to the first other character,
  // or a third colon in a row, say: eight groups and no "::", or the groups before its one "::", zeros, and
  // the groups after it, eight together.
  lemma ParseMeans(text: string) returns (n: nat, double: Option<nat>)
    requires Parse(text).Some?
    ensures EndsAt(text, n) && forall i :: 0 <= i < n ==> DigitValue(text[i]) < 16 || text[i] == ':'
    ensures forall j: nat :: DoubleAt(text[..n], j) <==> double == Some(j)
    ensures var a, p := Parse(text).value, text[..n];
            match double
            case None => AreGroups(Groups(p)) && |Groups(p)| == GROUPS && a == Values(Groups(p))
            case Some(k) =>
              k + 2 <= n && p[k..k + 2] == "::"
              && var left, right := Groups(p[..k]), Groups(p[k + 2..]);
              && AreGroups(left) && AreGroups(right) && |left| + |right| <= GROUPS
              && a == Values(left) + Zeros(GROUPS - |left| - |right|) + Values(right)
  {
    assert text[..0] == "" && text[0..] == text && Split("") == ([], "");
    n, double := ReadMeans(FRESH, text, 0, None);
    ReadFits(FRESH, text);
    FinishMeans(Read(FRESH, text).value, text[..n], double);
    assert forall i :: 0 <= i < n ==> text[..n][i] == text[i];
  }

  lemma FinishMeans(s: Reader, p: string, double: Option<nat>)
    requires Means(s, p, double) && ReaderOk(s) && Finish(s).Some?
    ensures match double
            case None => AreGroups(Groups(p)) && |Groups(p)| == GROUPS && Finish(s).value == Values(Groups(p))
            case Some(k) =>
              var left, right := Groups(p[..k]), Groups(p[k + 2..]);
              && AreGroups(left) && AreGroups(right) && |left| + |right| <= GROUPS
              && Finish(s).value == Values(left) + Zeros(GROUPS - |left| - |right|) + Values(right)
  {
    hide Split, Groups, Value, Means, Values;
    MeansQuads(s, p, double);
    var quads := if s.digits > 0 then s.quads + [s.quad] else s.quads;
    if double.Some? {
      var left, right := Groups(p[..double.value]), Groups(p[double.value + 2..]);
      GroupsAt(p, double.value);
      ValuesParts(left, right);
    }
  }

  lemma MeansQuads(s: Reader, p: string, double: Option<nat>)
    requires Means(s, p, double)
    ensures (if s.digits > 0 then s.quads + [s.quad] else s.quads) == Values(Groups(p)) && AreGroups(Groups(p))
    ensures match double
            case None => s.double == GROUPS
            case Some(k) => s.double < GROUPS && k + 2 <= |p| && p[k..k + 2] == "::" && s.double == |Groups(p[..k])|
  {
  }

  lemma ValuesParts(left: seq<string>, right: seq<string>)
    requires AreGroups(left + right)
    ensures AreGroups(left) && AreGroups(right)
    ensures |Values(left + right)| == |left| + |right|
    ensures Values(left + right)[..|left|] == Values(left) && Values(left + right)[|left|..] == Values(right)
  {
    assert forall i :: 0 <= i < |left| ==> left[i] == (left + right)[i];
    assert forall i :: 0 <= i < |right| ==> right[i] == (left + right)[|left| + i];
  }

  // ------------------------------------------------------------------------------------------
  // Printing

  lemma {:induction false} HexRight(x: nat, digits: nat)
    requires x < Pow16(digits) && 1 <= digits <= 4
    ensures |Hex(x)| <= digits && IsGroup(Hex(x)) && Value(Hex(x)) == x
    decreases digits
  {
    if x < 16 {
      DigitRight(x);
      assert [Digit(x)][..0] == [];
    } else {
      HexRight(x / 16, digits - 1);
      DigitRight(x % 16);
      var h := Hex(x / 16);
      assert Hex(x) == h + [Digit(x % 16)] && Hex(x)[..|h|] == h;
    }
  }

  function Pow16(n: nat): nat {
    if n == 0 then 1 else 16 * Pow16(n - 1)
  }

  const LOWER: string := "0123456789abcdef"
  const UPPER: string := "0123456789ABCDEF"

  // A character stands for d in either case, and for nothing else; the printer writes lower case.
  lemma DigitsOf(c: char, d: nat)
    requires d < 16
    ensures DigitValue(c) == d <==> c == LOWER[d] || c == UPPER[d]
    ensures DigitValue(c) == 16 <==> c !in LOWER && c !in UPPER
    ensures Digit(d) == LOWER[d]
  {
  }

  lemma DigitRight(d: nat)
    requires d < 16
    ensures DigitValue(Digit(d)) == d
  {
  }

  lemma HexesRight(a: seq<nat>)
    requires forall i :: 0 <= i < |a| ==> a[i] < QUAD_RANGE
    ensures AreGroups(Hexes(a)) && Values(Hexes(a)) == a
  {
    forall i | 0 <= i < |a| ensures IsGroup(Hexes(a)[i]) && Value(Hexes(a)[i]) == a[i] {
      assert Pow16(4) == QUAD_RANGE;
      HexRight(a[i], 4);
    }
  }

  lemma {:induction false} HexesColons(a: seq<nat>)
    ensures a != [] ==> Colons(Hexes(a)) == Hex(a[0]) + (if |a| == 1 then "" else ":" + Colons(Hexes(a[1..])))
  {
    if a != [] {
      assert Hexes(a)[1..] == Hexes(a[1..]);
    }
  }

  // Groups printed to the end, none of them left out.
  lemma {:induction false} PrintTail(a: seq<nat>, s: Scan, i: nat, afterDouble: bool)
    requires i <= |a| && (s.maxN <= 1 || s.iMax < i)
    ensures PrintFrom(a, s, i, afterDouble)
            == (if afterDouble || i == 0 || i == |a| then "" else ":") + Colons(Hexes(a[i..]))
    decreases |a| - i
  {
    if i < |a| {
      PrintTail(a, s, i + 1, false);
      HexesColons(a[i..]);
      assert a[i..][1..] == a[i + 1..];
    }
  }

  lemma PrintOne(a: seq<nat>, s: Scan, i: nat)
    requires i < |a| && !(i == s.iMax && s.maxN > 1)
    ensures PrintFrom(a, s, i, false) == (if i == 0 then "" else ":") + Hex(a[i]) + PrintFrom(a, s, i + 1, false)
  {
  }

  lemma PrintDouble(a: seq<nat>, s: Scan, i: nat)
    requires i < |a| && i == s.iMax && s.maxN > 1
    ensures PrintFrom(a, s, i, false) == "::" + PrintFrom(a, s, i + s.maxN, true)
  {
  }

  lemma NoGroups(a: seq<nat>, i: nat)
    requires i <= |a|
    ensures Colons(Hexes(a[i..i])) == ""
  {
    assert a[i..i] == [];
  }

  // Groups i to iMax printed, then "::", then the rest.
  lemma {:induction false} PrintHead(a: seq<nat>, s: Scan, i: nat)
    requires i <= s.iMax && s.iMax + s.maxN <= |a| && 1 < s.maxN
    ensures PrintFrom(a, s, i, false)
            == (if i == 0 || i == s.iMax then "" else ":") + Colons(Hexes(a[i..s.iMax])) + "::"
               + Colons(Hexes(a[s.iMax + s.maxN..]))
    decreases s.iMax - i
  {
    hide PrintFrom, Colons, Hexes, Hex;
    var right := Colons(Hexes(a[s.iMax + s.maxN..]));
    if i == s.iMax {
      PrintDouble(a, s, i);
      PrintTail(a, s, i + s.maxN, true);
      NoGroups(a, i);
    } else {
      PrintOne(a, s, i);
      PrintHead(a, s, i + 1);
      var b := a[i..s.iMax];
      HexesColons(b);
      assert b[1..] == a[i + 1..s.iMax];
      if i + 1 == s.iMax { NoGroups(a, i + 1); }
      Spliced(if i == 0 then "" else ":", Hex(a[i]), if |b| == 1 then "" else ":" + Colons(Hexes(b[1..])), right);
    }
  }

  lemma Spliced(a: string, b: string, c: string, d: string)
    ensures a + b + (c + "::" + d) == a + (b + c) + "::" + d
  {
  }

  // ------------------------------------------------------------------------------------------
  // The run the printer chooses

  // Counted zeros fit before the place the scan has reached.
  ghost predicate ScanOk(s: Scan, i: nat) {
    && (if s.maxN > 0 then s.iMax + s.maxN <= i else s.iMax == GROUPS)
    && (if s.iFirst < GROUPS then 0 < s.n && s.iFirst + s.n <= i else s.iFirst == GROUPS && s.n == 0)
  }

  lemma {:induction false} ScanBounds(a: seq<nat>, i: nat)
    requires |a| == GROUPS && i <= GROUPS
    ensures ScanOk(Scanned(a, i), i)
    decreases i
  {
    if i > 0 { ScanBounds(a, i - 1); }
  }

  ghost predicate AllZero(a: seq<nat>, from: nat, len: nat) {
    from + len <= |a| && forall i :: from <= i < from + len ==> a[i] == 0
  }

  // The chosen run is one of zeros only.
  ghost predicate ChoiceOk(a: seq<nat>)
    requires |a| == GROUPS
  {
    var s := Scanned(a, GROUPS);
    s.maxN <= 1 || AllZero(a, s.iMax, s.maxN)
  }

  lemma FormatIs(a: seq<nat>)
    requires |a| == GROUPS
    ensures Format(a) == PrintFrom(a, Scanned(a, GROUPS), 0, false)
  {
  }

  // The printer's text is always in a form of RFC 4291.
  lemma FormatLegal(a: seq<nat>)
    requires IsAddress(a)
    ensures var s := Scanned(a, GROUPS);
            if s.maxN <= 1 then IsFull(Format(a), Hexes(a))
            else s.iMax + s.maxN <= GROUPS
                 && IsCompressed(Format(a), Hexes(a[..s.iMax]), Hexes(a[s.iMax + s.maxN..]))
  {
    hide Scanned, Format, PrintFrom, Colons, Hexes;
    var s := Scanned(a, GROUPS);
    ScanBounds(a, GROUPS);
    FormatIs(a);
    if s.maxN <= 1 {
      PrintTail(a, s, 0, false);
      assert a[0..] == a;
      HexesRight(a);
    } else {
      PrintHead(a, s, 0);
      HexesRight(a[..s.iMax]);
      HexesRight(a[s.iMax + s.maxN..]);
    }
  }

  // Parsing the printed text gives the address with the chosen run cleared, so the address itself if
  // and only if that run is all zero.
  lemma RoundTrip(a: seq<nat>)
    requires IsAddress(a)
    ensures Parse(Format(a)).Some?
    ensures Parse(Format(a)) == Some(a) <==> ChoiceOk(a)
  {
    hide Parse, Format, Scanned, Hexes, Values, Zeros, Colons, IsFull, IsCompressed, AllZero;
    FormatLegal(a);
    var s := Scanned(a, GROUPS);
    if s.maxN <= 1 {
      HexesRight(a);
      ParseFull(Format(a), Hexes(a));
    } else {
      var left, right := a[..s.iMax], a[s.iMax + s.maxN..];
      HexesRight(left);
      HexesRight(right);
      ParseCompressed(Format(a), Hexes(left), Hexes(right));
      Cleared(a, s.iMax, s.maxN);
    }
  }

  lemma Cleared(a: seq<nat>, from: nat, len: nat)
    requires |a| == GROUPS && from + len <= GROUPS
    ensures a[..from] + Zeros(len) + a[from + len..] == a <==> AllZero(a, from, len)
  {
    var b := a[..from] + Zeros(len) + a[from + len..];
    forall i | from <= i < from + len ensures b[i] == 0 {}
    if AllZero(a, from, len) {
      forall i | 0 <= i < GROUPS ensures b[i] == a[i] {}
    }
  }

  // Runs of zeros that start before place i.
  function Runs(a: seq<nat>, i: nat): nat
    requires i <= |a|
  {
    if i == 0 then 0 else Runs(a, i - 1) + if a[i - 1] == 0 && (i == 1 || a[i - 2] != 0) then 1 else 0
  }

  // The scan with at most two runs behind it: a run being counted is all zeros up to here, or is a
  // second run that was not longer than the first.
  ghost predicate FewRuns(a: seq<nat>, i: nat, s: Scan)
    requires i <= |a|
  {
    && (s.maxN > 0 ==> AllZero(a, s.iMax, s.maxN))
    && (Runs(a, i) == 0 ==> s.iFirst == GROUPS && s.maxN == 0)
    && (Runs(a, i) == 1 && s.iFirst < GROUPS ==> s.maxN == 0 && i > 0 && a[i - 1] == 0)
    && (s.iFirst < GROUPS && i > 0 && a[i - 1] == 0 ==> s.n == i - s.iFirst && AllZero(a, s.iFirst, s.n))
    && (s.iFirst < GROUPS && i > 0 && a[i - 1] != 0 ==> Runs(a, i) == 2)
  }

  lemma {:induction false} FewRunsKept(a: seq<nat>, i: nat)
    requires |a| == GROUPS && i < GROUPS && Runs(a, i + 1) <= 2
    ensures Runs(a, i) <= 2 && FewRuns(a, i, Scanned(a, i))
    decreases i
  {
    ScanBounds(a, i);
    if i > 0 {
      FewRunsKept(a, i - 1);
      ScanBounds(a, i - 1);
    }
  }

  lemma FewRunsChosen(a: seq<nat>, s: Scan)
    requires |a| == GROUPS && Runs(a, GROUPS) <= 2
    requires ScanOk(s, GROUPS - 1) && FewRuns(a, GROUPS - 1, s) && (a[GROUPS - 2] != 0 ==> s.n <= s.maxN)
    ensures var t := ScanStep(a, GROUPS - 1, s); t.maxN <= 1 || AllZero(a, t.iMax, t.maxN)
  {
    hide Runs;
    RunsNext(a, GROUPS - 1);
  }

  // A run that a group has ended was chosen, or is no longer than the one that was.
  lemma AfterNonZero(a: seq<nat>, i: nat)
    requires 0 < i <= |a| && a[i - 1] != 0
    ensures Scanned(a, i).n <= Scanned(a, i).maxN
  {
  }

  lemma RunsNext(a: seq<nat>, i: nat)
    requires i < |a|
    ensures Runs(a, i + 1) == Runs(a, i) + if a[i] == 0 && (i == 0 || a[i - 1] != 0) then 1 else 0
  {
  }

  lemma ChoiceIs(a: seq<nat>)
    requires |a| == GROUPS
    ensures var t := ScanStep(a, GROUPS - 1, Scanned(a, GROUPS - 1));
            ChoiceOk(a) <==> t.maxN <= 1 || AllZero(a, t.iMax, t.maxN)
  {
    hide ScanStep;
  }

  // An address with at most two runs of zeros always survives.
  lemma TwoRunsSurvive(a: seq<nat>)
    requires IsAddress(a) && Runs(a, GROUPS) <= 2
    ensures ChoiceOk(a) && Parse(Format(a)) == Some(a)
  {
    hide Parse, Format, Scanned, ScanStep, Runs, FewRuns, ChoiceOk;
    RunsNext(a, GROUPS - 1);
    FewRunsKept(a, GROUPS - 1);
    ScanBounds(a, GROUPS - 1);
    if a[GROUPS - 2] != 0 { AfterNonZero(a, GROUPS - 1); }
    FewRunsChosen(a, Scanned(a, GROUPS - 1));
    ChoiceIs(a);
    RoundTrip(a);
  }

  // One with three may not: 0:0:1:0:1:0:0:1 is printed as 0:0:1::0:1, its fourth to sixth groups, one
  // of them a 1, taken for zeros.
  lemma ThreeRunsLost()
    ensures var a := [0, 0, 1, 0, 1, 0, 0, 1]; Parse(Format(a)) != Some(a)
  {
    var a := [0, 0, 1, 0, 1, 0, 0, 1];
    assert Scanned(a, 3) == Scan(0, 2, GROUPS, 0);
    assert Scanned(a, 5) == Scan(0, 2, 3, 1);
    assert Scanned(a, 7) == Scan(0, 2, 3, 3);
    assert Scanned(a, 8) == Scan(3, 3, GROUPS, 0);
    assert a[4] == 1;
    hide Parse, Format, Scanned;
    RoundTrip(a);
  }
}
