/**
 * The four case-mapping tables for characters outside the Basic Multilingual
 * Plane (js/src/vm/UnicodeNonBMP.h).  Each row names a range of code points,
 * the UTF-16 lead surrogate they all share, the range of their trail
 * surrogates, and the signed distance to the mapped code points.
 */
module UnicodeNonBMP {

  datatype Row = Row(start: int, end: int, lead: int, trailStart: int, trailEnd: int, delta: int)

  const LowerCase: seq<Row> := [
    Row(0x10400, 0x10427, 0xd801, 0xdc00, 0xdc27, 40),
    Row(0x104b0, 0x104d3, 0xd801, 0xdcb0, 0xdcd3, 40),
    Row(0x10c80, 0x10cb2, 0xd803, 0xdc80, 0xdcb2, 64),
    Row(0x118a0, 0x118bf, 0xd806, 0xdca0, 0xdcbf, 32),
    Row(0x1e900, 0x1e921, 0xd83a, 0xdd00, 0xdd21, 34)
  ]

  const UpperCase: seq<Row> := [
    Row(0x10428, 0x1044f, 0xd801, 0xdc28, 0xdc4f, -40),
    Row(0x104d8, 0x104fb, 0xd801, 0xdcd8, 0xdcfb, -40),
    Row(0x10cc0, 0x10cf2, 0xd803, 0xdcc0, 0xdcf2, -64),
    Row(0x118c0, 0x118df, 0xd806, 0xdcc0, 0xdcdf, -32),
    Row(0x1e922, 0x1e943, 0xd83a, 0xdd22, 0xdd43, -34)
  ]

  const CaseFolding: seq<Row> := [
    Row(0x10400, 0x10427, 0xd801, 0xdc00, 0xdc27, 40),
    Row(0x104b0, 0x104d3, 0xd801, 0xdcb0, 0xdcd3, 40),
    Row(0x10c80, 0x10cb2, 0xd803, 0xdc80, 0xdcb2, 64),
    Row(0x118a0, 0x118bf, 0xd806, 0xdca0, 0xdcbf, 32),
    Row(0x1e900, 0x1e921, 0xd83a, 0xdd00, 0xdd21, 34)
  ]

  const RevCaseFolding: seq<Row> := [
    Row(0x10428, 0x1044f, 0xd801, 0xdc28, 0xdc4f, -40),
    Row(0x104d8, 0x104fb, 0xd801, 0xdcd8, 0xdcfb, -40),
    Row(0x10cc0, 0x10cf2, 0xd803, 0xdcc0, 0xdcf2, -64),
    Row(0x118c0, 0x118df, 0xd806, 0xdcc0, 0xdcdf, -32),
    Row(0x1e922, 0x1e943, 0xd83a, 0xdd22, 0xdd43, -34)
  ]

  predicate IsSupplementary(cp: int) { 0x10000 <= cp <= 0x10FFFF }

  /** The high (lead) surrogate of a supplementary code point, RFC 2781 section 2.1. */
  function Lead(cp: int): (w1: int)
    requires IsSupplementary(cp)
    ensures 0xD800 <= w1 <= 0xDBFF
  {
    0xD800 + (cp - 0x10000) / 0x400
  }

  /** The low (trail) surrogate of a supplementary code point, RFC 2781 section 2.1. */
  function Trail(cp: int): (w2: int)
    requires IsSupplementary(cp)
    ensures 0xDC00 <= w2 <= 0xDFFF
  {
    0xDC00 + (cp - 0x10000) % 0x400
  }

  /** Decoding a surrogate pair, RFC 2781 section 2.2. */
  function Decode(w1: int, w2: int): (cp: int)
    requires 0xD800 <= w1 <= 0xDBFF && 0xDC00 <= w2 <= 0xDFFF
    ensures IsSupplementary(cp)
  {
    0x10000 + (w1 - 0xD800) * 0x400 + (w2 - 0xDC00)
  }

  lemma DecodeEncode(cp: int)
    requires IsSupplementary(cp)
    ensures Decode(Lead(cp), Trail(cp)) == cp
  {
  }

  lemma EncodeDecode(w1: int, w2: int)
    requires 0xD800 <= w1 <= 0xDBFF && 0xDC00 <= w2 <= 0xDFFF
    ensures Lead(Decode(w1, w2)) == w1 && Trail(Decode(w1, w2)) == w2
  {
    var c := Decode(w1, w2) - 0x10000;
    assert c == (w1 - 0xD800) * 0x400 + (w2 - 0xDC00);
    assert c / 0x400 == w1 - 0xD800 && c % 0x400 == w2 - 0xDC00;
  }

  /** The surrogate columns of a row are the UTF-16 encoding of its code point range. */
  predicate RowEncoded(r: Row)
  {
    IsSupplementary(r.start) && IsSupplementary(r.end) && r.start <= r.end
    && r.lead == Lead(r.start) && r.lead == Lead(r.end)
    && r.trailStart == Trail(r.start) && r.trailEnd == Trail(r.end)
  }

  /** Rows are strictly increasing and do not overlap. */
  predicate Ascending(t: seq<Row>)
  {
    forall i, j :: 0 <= i < j < |t| ==> t[i].end < t[j].start
  }

  /** Each row ends before the next one starts; the form in which the tables are checked. */
  predicate Chained(t: seq<Row>)
  {
    (forall i :: 0 <= i < |t| ==> t[i].start <= t[i].end)
    && (forall i :: 0 <= i < |t| - 1 ==> t[i].end < t[i + 1].start)
  }

  lemma {:induction false} ChainedAscending(t: seq<Row>)
    requires Chained(t)
    ensures Ascending(t)
  {
    if |t| > 1 {
      assert Chained(t[1..]) by {
        forall i | 0 <= i < |t[1..]| - 1 ensures t[1..][i].end < t[1..][i + 1].start {
          assert t[1..][i] == t[i + 1] && t[1..][i + 1] == t[i + 2];
        }
      }
      ChainedAscending(t[1..]);
      forall i, j | 0 <= i < j < |t| ensures t[i].end < t[j].start {
        if i > 0 {
          assert t[1..][i - 1] == t[i] && t[1..][j - 1] == t[j];
        } else if j > 1 {
          assert t[1..][0] == t[1] && t[1..][j - 1] == t[j];
        }
      }
    }
  }

  predicate WellFormed(t: seq<Row>)
  {
    (forall i :: 0 <= i < |t| ==> RowEncoded(t[i])) && Ascending(t)
  }

  lemma TablesWellFormed()
    ensures WellFormed(LowerCase) && WellFormed(UpperCase)
    ensures WellFormed(CaseFolding) && WellFormed(RevCaseFolding)
  {
    forall i | 0 <= i < |LowerCase| ensures RowEncoded(LowerCase[i]) {
      RowEncodedByValues(LowerCase[i]);
    }
    forall i | 0 <= i < |UpperCase| ensures RowEncoded(UpperCase[i]) {
      RowEncodedByValues(UpperCase[i]);
    }
    ChainedAscending(LowerCase);
    ChainedAscending(UpperCase);
    FoldingTablesEqual();
  }

  /** Checks the surrogate columns one row at a time, by their concrete values. */
  lemma RowEncodedByValues(r: Row)
    requires r in LowerCase || r in UpperCase
    ensures RowEncoded(r)
  {
  }

  /** Within a row both ends share the lead surrogate, so the trail range is as wide as the code point range. */
  lemma {:induction false} TrailWidthMatches(t: seq<Row>, i: int)
    requires WellFormed(t) && 0 <= i < |t|
    ensures t[i].trailEnd - t[i].trailStart == t[i].end - t[i].start
  {
    var r := t[i];
    assert RowEncoded(r);
    var a, b := r.start - 0x10000, r.end - 0x10000;
    assert a / 0x400 == b / 0x400;
    assert a == a / 0x400 * 0x400 + a % 0x400;
    assert b == b / 0x400 * 0x400 + b % 0x400;
  }

  /** The case mapping a table describes, on code points: shift by the delta of the containing row. */
  function MapCodePoint(t: seq<Row>, cp: int): (r: int)
    requires Ascending(t)
    ensures forall i :: 0 <= i < |t| && t[i].start <= cp <= t[i].end ==> r == cp + t[i].delta
    ensures (forall i :: 0 <= i < |t| ==> !(t[i].start <= cp <= t[i].end)) ==> r == cp
  {
    if t == [] then cp
    else if t[0].start <= cp <= t[0].end then cp + t[0].delta
    else
      assert Ascending(t[1..]) by {
        forall i, j | 0 <= i < j < |t[1..]| ensures t[1..][i].end < t[1..][j].start {
          assert t[1..][i] == t[i + 1] && t[1..][j] == t[j + 1];
        }
      }
      var r := MapCodePoint(t[1..], cp);
      assert forall i :: 1 <= i < |t| ==> t[i] == t[1..][i - 1];
      r
  }

  /** Row i of LOWERCASE shifted by its delta is row i of UPPERCASE, and UPPERCASE shifts back. */
  lemma LowerUpperMirror()
    ensures |LowerCase| == |UpperCase|
    ensures forall i :: 0 <= i < |LowerCase| ==>
      LowerCase[i].start + LowerCase[i].delta == UpperCase[i].start
      && LowerCase[i].end + LowerCase[i].delta == UpperCase[i].end
      && UpperCase[i].delta == -LowerCase[i].delta
  {
  }

  /** The tables for case folding are the lower-casing tables and their reverse the upper-casing ones. */
  lemma FoldingTablesEqual()
    ensures CaseFolding == LowerCase && RevCaseFolding == UpperCase
  {
  }

  /** Mapping a code point with LOWERCASE and mapping the result back with UPPERCASE restores it. */
  lemma LowerThenUpper(cp: int, i: int)
    requires 0 <= i < |LowerCase| && LowerCase[i].start <= cp <= LowerCase[i].end
    ensures Ascending(LowerCase) && Ascending(UpperCase)
    ensures MapCodePoint(LowerCase, cp) == cp + LowerCase[i].delta
    ensures MapCodePoint(UpperCase, MapCodePoint(LowerCase, cp)) == cp
  {
    TablesWellFormed();
    LowerUpperMirror();
  }
}
