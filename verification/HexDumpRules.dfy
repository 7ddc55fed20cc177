/** What the packet dump of logging.c shows: which line each byte of the packet
    goes to, and what the lines look like. */
module HexDumpRules {
  import opened Bytes

  datatype BlankType = PKTLOG_EMIT | PKTLOG_BLANK | PKTLOG_OMIT

  datatype Blank = Blank(offset: nat, len: nat, kind: BlankType)

  predicate Covers(b: Blank, o: nat) { b.offset <= o < b.offset + b.len }

  /** Plain lookup: the first blanking area that covers the offset. */
  function Lookup(blanks: seq<Blank>, o: nat): BlankType {
    if blanks == [] then PKTLOG_EMIT
    else if Covers(blanks[0], o) then blanks[0].kind
    else Lookup(blanks[1..], o)
  }

  /** "Set of blanking areas must be in increasing order." */
  predicate Increasing(blanks: seq<Blank>) {
    forall i, j :: 0 <= i < j < |blanks| ==> blanks[i].offset <= blanks[j].offset
  }

  lemma {:induction false} LookupNone(blanks: seq<Blank>, o: nat)
    requires forall i :: 0 <= i < |blanks| ==> !Covers(blanks[i], o)
    ensures Lookup(blanks, o) == PKTLOG_EMIT
  {
    if blanks != [] { LookupNone(blanks[1..], o); }
  }

  /** The moving cursor: when every area before `b` ends at or before `o` and
      area `b` does not, looking at area `b` alone is the plain lookup. */
  lemma {:induction false} CursorIsLookup(blanks: seq<Blank>, b: nat, o: nat)
    requires Increasing(blanks) && b <= |blanks|
    requires forall i :: 0 <= i < b ==> blanks[i].offset + blanks[i].len <= o
    requires b < |blanks| ==> o < blanks[b].offset + blanks[b].len
    ensures Lookup(blanks, o) == if b < |blanks| && Covers(blanks[b], o) then blanks[b].kind else PKTLOG_EMIT
  {
    if b > 0 {
      assert !Covers(blanks[0], o);
      CursorIsLookup(blanks[1..], b - 1, o);
    } else if b < |blanks| && !Covers(blanks[b], o) {
      forall i | 0 <= i < |blanks| ensures !Covers(blanks[i], o) {
        assert i > 0 ==> blanks[0].offset <= blanks[i].offset;
      }
      LookupNone(blanks, o);
    }
  }

  /** What becomes of each byte of a packet. */
  function Kinds(len: nat, blanks: seq<Blank>): (ks: seq<BlankType>)
    ensures |ks| == len
  {
    seq(len, o requires 0 <= o < len => Lookup(blanks, o))
  }

  // ------------------------------------------------------------- the lines

  /** A line of the dump, with the offsets it accounts for. */
  datatype Line = Row(lo: nat, hi: nat) | Omitted(lo: nat, hi: nat)

  /** Where the omitted stretch that goes on at `p` ends. */
  function OmitEnd(ks: seq<BlankType>, p: nat): (q: nat)
    requires p <= |ks|
    ensures p <= q <= |ks| && (forall o :: p <= o < q ==> ks[o] == PKTLOG_OMIT) && (q < |ks| ==> ks[q] != PKTLOG_OMIT)
    decreases |ks| - p
  {
    if p < |ks| && ks[p] == PKTLOG_OMIT then OmitEnd(ks, p + 1) else p
  }

  /** Where the row that goes on at `p` ends: before an omitted byte, at the end
      of the packet, or at a multiple of 16. */
  function RowEnd(ks: seq<BlankType>, p: nat): (q: nat)
    requires p <= |ks|
    ensures p <= q <= |ks| && (forall o :: p <= o < q ==> ks[o] != PKTLOG_OMIT)
    ensures forall o :: p < o < q ==> o % 16 != 0
    ensures q < |ks| && ks[q] != PKTLOG_OMIT ==> q % 16 == 0 && q > p
    decreases |ks| - p
  {
    if p < |ks| && ks[p] != PKTLOG_OMIT then
      if (p + 1) % 16 == 0 then p + 1 else RowEnd(ks, p + 1)
    else p
  }

  function Lines(ks: seq<BlankType>, p: nat): seq<Line>
    requires p <= |ks|
    decreases |ks| - p
  {
    if p == |ks| then []
    else if ks[p] == PKTLOG_OMIT then [Omitted(p, OmitEnd(ks, p))] + Lines(ks, OmitEnd(ks, p))
    else [Row(p, RowEnd(ks, p))] + Lines(ks, RowEnd(ks, p))
  }

  predicate Shows(l: Line, o: nat) { l.lo <= o < l.hi }

  /** A line holds a stretch of offsets of its own kind; a row stays within one
      block of 16. */
  ghost predicate LineOk(ks: seq<BlankType>, l: Line) {
    && l.lo < l.hi <= |ks|
    && (forall o :: l.lo <= o < l.hi ==> (ks[o] == PKTLOG_OMIT <==> l.Omitted?))
    && (l.Row? ==> l.lo / 16 == (l.hi - 1) / 16)
  }

  lemma SameBlock(lo: nat, hi: nat)
    requires lo < hi && forall o :: lo < o < hi ==> o % 16 != 0
    ensures lo / 16 == (hi - 1) / 16
  {
    var m := (lo / 16 + 1) * 16;
    assert lo < m && m % 16 == 0;
  }

  /** The lines account for the offsets from `p` on. */
  ghost predicate Account(ks: seq<BlankType>, p: nat, ls: seq<Line>) {
    && (forall i :: 0 <= i < |ls| ==> LineOk(ks, ls[i]))
    && (ls == [] <==> p == |ks|)
    && (ls != [] ==> ls[0].lo == p && ls[|ls| - 1].hi == |ks|)
    && (forall i, j :: 0 <= i && j == i + 1 < |ls| ==> Follows(ls[i], ls[j]))
  }

  /** Next to each other, and not to be joined. */
  ghost predicate Follows(l: Line, m: Line) {
    && l.hi == m.lo && !(l.Omitted? && m.Omitted?)
    && (l.Row? && m.Row? ==> l.hi % 16 == 0)
  }

  lemma AccountCons(ks: seq<BlankType>, l: Line, ls: seq<Line>)
    requires LineOk(ks, l) && Account(ks, l.hi, ls) && (ls != [] ==> Follows(l, ls[0]))
    ensures Account(ks, l.lo, [l] + ls)
  {
    hide Follows, LineOk;
    var all := [l] + ls;
    assert l.lo < |ks| && (ls == [] ==> l.hi == |ks|) by { assert LineOk(ks, l); LineShort(ks, l); }
    forall i, j | 0 <= i && j == i + 1 < |all| ensures Follows(all[i], all[j]) {
      if i > 0 { assert all[i] == ls[i - 1] && all[j] == ls[j - 1]; }
    }
  }

  lemma LineShort(ks: seq<BlankType>, l: Line)
    requires LineOk(ks, l)
    ensures l.lo < l.hi <= |ks|
  {
  }

  /** Every offset is accounted for, in offset order; a stretch of omitted bytes
      is one single line, and a row ends only at a multiple of 16, before an
      omitted byte, or with the packet. */
  lemma {:induction false} LinesAccount(ks: seq<BlankType>, p: nat)
    requires p <= |ks|
    ensures Account(ks, p, Lines(ks, p))
    decreases |ks| - p
  {
    if p < |ks| {
      hide Lines, Account;
      var l := LinesFrom(ks, p);
      LinesAccount(ks, l.hi);
      if l.Row? { SameBlock(p, l.hi); }
      if l.hi < |ks| { FirstFollows(ks, p); }
      AccountEnds(ks, l.hi, Lines(ks, l.hi));
      AccountCons(ks, l, Lines(ks, l.hi));
    }
  }

  lemma AccountEnds(ks: seq<BlankType>, p: nat, ls: seq<Line>)
    requires Account(ks, p, ls)
    ensures ls == [] <==> p == |ks|
  {
  }

  lemma FirstFollows(ks: seq<BlankType>, p: nat)
    requires p < |ks| && (if ks[p] == PKTLOG_OMIT then OmitEnd(ks, p) else RowEnd(ks, p)) < |ks|
    ensures
      var q := if ks[p] == PKTLOG_OMIT then OmitEnd(ks, p) else RowEnd(ks, p);
      Lines(ks, q) != [] && Follows(Lines(ks, p)[0], Lines(ks, q)[0])
  {
  }

  predicate ShownOnce(ls: seq<Line>, o: nat) {
    && (exists i :: 0 <= i < |ls| && Shows(ls[i], o))
    && (forall i, j :: 0 <= i < j < |ls| ==> !(Shows(ls[i], o) && Shows(ls[j], o)))
  }

  lemma ShownFirst(l: Line, rest: seq<Line>, o: nat)
    requires Shows(l, o) && forall j :: 0 <= j < |rest| ==> !Shows(rest[j], o)
    ensures ShownOnce([l] + rest, o)
  {
    hide Shows;
    assert ([l] + rest)[0] == l;
  }

  lemma ShownLater(l: Line, rest: seq<Line>, o: nat)
    requires !Shows(l, o) && ShownOnce(rest, o)
    ensures ShownOnce([l] + rest, o)
  {
    hide Shows;
    var i :| 0 <= i < |rest| && Shows(rest[i], o);
    assert ([l] + rest)[i + 1] == rest[i];
  }

  /** The next line, and the rest. */
  lemma LinesFrom(ks: seq<BlankType>, p: nat) returns (l: Line)
    requires p < |ks|
    ensures l.lo == p < l.hi <= |ks| && l == if ks[p] == PKTLOG_OMIT then Omitted(p, OmitEnd(ks, p)) else Row(p, RowEnd(ks, p))
    ensures Lines(ks, p) == [l] + Lines(ks, l.hi)
  {
    l := if ks[p] == PKTLOG_OMIT then Omitted(p, OmitEnd(ks, p)) else Row(p, RowEnd(ks, p));
  }

  /** The one line of an offset. */
  lemma {:induction false} LineOfOffset(ks: seq<BlankType>, p: nat, o: nat)
    requires p <= o < |ks|
    ensures ShownOnce(Lines(ks, p), o)
    decreases |ks| - p
  {
    hide ShownOnce, Lines;
    var l := LinesFrom(ks, p);
    if o < l.hi {
      LinesStart(ks, l.hi);
      ShownFirst(l, Lines(ks, l.hi), o);
    } else {
      LineOfOffset(ks, l.hi, o);
      ShownLater(l, Lines(ks, l.hi), o);
    }
  }

  lemma {:induction false} LinesStart(ks: seq<BlankType>, p: nat)
    requires p <= |ks|
    ensures forall i :: 0 <= i < |Lines(ks, p)| ==> Lines(ks, p)[i].lo >= p
    decreases |ks| - p
  {
    if p < |ks| {
      var l := LinesFrom(ks, p);
      LinesStart(ks, l.hi);
    }
  }

  // -------------------------------------------------------------- the text

  function HexDigit(d: int): char
    requires 0 <= d < 16
  {
    "0123456789abcdef"[d]
  }

  /** The last `w` hex digits. */
  function HexDigits(n: nat, w: nat): (s: string)
    ensures |s| == w
  {
    if w == 0 then "" else HexDigits(n / 16, w - 1) + [HexDigit(n % 16)]
  }

  /** How many %08x prints: eight at least. */
  function HexWidth(n: nat): (w: nat)
    ensures w >= 8
  {
    if n < 0x1_0000_0000 then 8 else 1 + HexWidth(n / 16)
  }

  function Hex(n: nat): string { HexDigits(n, HexWidth(n)) }

  function Pow16(k: nat): (p: nat)
    ensures p > 0
  {
    if k == 0 then 1 else 16 * Pow16(k - 1)
  }

  function Decimal(n: nat): string {
    if n < 10 then ["0123456789"[n]] else Decimal(n / 10) + ["0123456789"[n % 10]]
  }

  const LINE_TEXT := 61
  const LINE_WIDTH := 77

  /** The two hex characters of a byte. */
  function HexChar(c: Byte, kind: BlankType, which: int): char
    requires which == 0 || which == 1
  {
    if kind == PKTLOG_BLANK then 'X' else if which == 0 then HexDigit(c / 16) else HexDigit(c % 16)
  }

  /** Its character on the right. */
  function TextChar(c: Byte, kind: BlankType): char {
    if kind == PKTLOG_BLANK then 'X' else if 0x20 <= c < 0x7f then c as char else '.'
  }

  /** What the fresh line has there: its address, from column 2 on. */
  function Blankline(start: nat, i: nat): char {
    if 2 <= i < 2 + |Hex(start)| then Hex(start)[i - 2] else ' '
  }

  /** Character `i` of a row that shows the offsets from `lo` to `hi`: every
      offset has the columns of its place in the block of 16. */
  function Image(data: seq<Byte>, ks: seq<BlankType>, lo: nat, hi: nat, i: nat): char
    requires hi <= |data| == |ks| && i < LINE_WIDTH
  {
    var start := lo - lo % 16;
    var c := if i >= LINE_TEXT then i - LINE_TEXT else if 12 <= i < 60 then (i - 12) / 3 else 0;
    if i >= LINE_TEXT && lo <= start + c < hi then TextChar(data[start + c], ks[start + c])
    else if 12 <= i < 60 && (i - 12) % 3 < 2 && lo <= start + c < hi then HexChar(data[start + c], ks[start + c], (i - 12) % 3)
    else Blankline(start, i)
  }

  function RowText(data: seq<Byte>, ks: seq<BlankType>, lo: nat, hi: nat): string
    requires lo < hi <= |data| == |ks|
  {
    seq(LINE_TEXT + (hi - 1) % 16 + 1, i requires 0 <= i < LINE_TEXT + (hi - 1) % 16 + 1 => Image(data, ks, lo, hi, i)) + "\r\n"
  }

  function OmitText(n: nat): string {
    "  (" + Decimal(n) + " byte" + (if n == 1 then "" else "s") + " omitted)\r\n"
  }

  function Text(data: seq<Byte>, ks: seq<BlankType>, l: Line): string
    requires |data| == |ks|
  {
    if l.Omitted? then OmitText(if l.lo <= l.hi then l.hi - l.lo else 0)
    else if l.lo < l.hi <= |data| then RowText(data, ks, l.lo, l.hi)
    else ""
  }

  /** The whole dump, one string a line. */
  function Render(data: seq<Byte>, ks: seq<BlankType>, ls: seq<Line>): (ts: seq<string>)
    requires |data| == |ks|
    ensures |ts| == |ls|
  {
    seq(|ls|, i requires 0 <= i < |ls| => Text(data, ks, ls[i]))
  }

  predicate AllOmitted(ks: seq<BlankType>, lo: nat, hi: nat)
    requires hi <= |ks|
  {
    forall o :: lo <= o < hi ==> ks[o] == PKTLOG_OMIT
  }

  predicate NoneOmitted(ks: seq<BlankType>, lo: nat, hi: nat)
    requires hi <= |ks|
  {
    forall o :: lo <= o < hi ==> ks[o] != PKTLOG_OMIT
  }

  lemma {:induction false} OmitEndIs(ks: seq<BlankType>, s: nat, q: nat)
    requires s <= q <= |ks| && AllOmitted(ks, s, q) && (q < |ks| ==> ks[q] != PKTLOG_OMIT)
    ensures OmitEnd(ks, s) == q
    decreases q - s
  {
    if s < q { OmitEndIs(ks, s + 1, q); }
  }

  lemma {:induction false} RowEndIs(ks: seq<BlankType>, s: nat, q: nat)
    requires s < q <= |ks| && NoneOmitted(ks, s, q) && s / 16 == (q - 1) / 16
    requires q == |ks| || q % 16 == 0 || ks[q] == PKTLOG_OMIT
    ensures RowEnd(ks, s) == q
    decreases q - s
  {
    if s + 1 < q { RowEndIs(ks, s + 1, q); }
  }

  lemma RenderCons(data: seq<Byte>, ks: seq<BlankType>, l: Line, ls: seq<Line>)
    requires |data| == |ks|
    ensures Render(data, ks, [l] + ls) == [Text(data, ks, l)] + Render(data, ks, ls)
  {
    hide Text;
  }

  /** An omitted stretch that is over is the next line. */
  lemma OmittedLineEnds(data: seq<Byte>, ks: seq<BlankType>, s: nat, q: nat)
    requires s < q <= |ks| == |data| && AllOmitted(ks, s, q) && (q < |ks| ==> ks[q] != PKTLOG_OMIT)
    ensures Render(data, ks, Lines(ks, s)) == [OmitText(q - s)] + Render(data, ks, Lines(ks, q))
  {
    hide Render, OmitText, RowText;
    OmitEndIs(ks, s, q);
    assert Lines(ks, s) == [Omitted(s, q)] + Lines(ks, q);
    RenderCons(data, ks, Omitted(s, q), Lines(ks, q));
  }

  /** So is a row that is over. */
  lemma RowLineEnds(data: seq<Byte>, ks: seq<BlankType>, s: nat, q: nat)
    requires s < q <= |ks| == |data| && NoneOmitted(ks, s, q) && s / 16 == (q - 1) / 16
    requires q == |ks| || q % 16 == 0 || ks[q] == PKTLOG_OMIT
    ensures Render(data, ks, Lines(ks, s)) == [RowText(data, ks, s, q)] + Render(data, ks, Lines(ks, q))
  {
    hide Render, RowText;
    RowEndIs(ks, s, q);
    assert Lines(ks, s) == [Row(s, q)] + Lines(ks, q);
    RenderCons(data, ks, Row(s, q), Lines(ks, q));
  }

  lemma NoLineLeft(data: seq<Byte>, ks: seq<BlankType>)
    requires |data| == |ks|
    ensures Render(data, ks, Lines(ks, |ks|)) == []
  {
  }

  function HexValue(c: char): int {
    if '0' <= c <= '9' then c as int - '0' as int else if 'a' <= c <= 'f' then c as int - 'a' as int + 10 else -1
  }

  lemma HexDigitBack(d: int)
    requires 0 <= d < 16
    ensures HexValue(HexDigit(d)) == d
  {
  }

  /** The columns of an offset. */
  lemma ImageColumns(data: seq<Byte>, ks: seq<BlankType>, lo: nat, hi: nat, o: nat)
    requires lo <= o < hi <= |data| == |ks| && lo - lo % 16 == o - o % 16
    ensures
      var c := o % 16;
      && Image(data, ks, lo, hi, 12 + 3 * c) == HexChar(data[o], ks[o], 0)
      && Image(data, ks, lo, hi, 13 + 3 * c) == HexChar(data[o], ks[o], 1)
      && Image(data, ks, lo, hi, 61 + c) == TextChar(data[o], ks[o])
  {
    hide HexChar, TextChar, Blankline;
    var c := o % 16;
    assert (12 + 3 * c - 12) / 3 == c && (13 + 3 * c - 12) / 3 == c;
  }

  lemma ByteFromDigits(c: Byte)
    ensures HexValue(HexChar(c, PKTLOG_EMIT, 0)) * 16 + HexValue(HexChar(c, PKTLOG_EMIT, 1)) == c
  {
    HexDigitBack(c / 16);
    HexDigitBack(c % 16);
  }

  /** Reading a byte back from its own row and column. */
  lemma RowShowsByte(data: seq<Byte>, ks: seq<BlankType>, l: Line, o: nat)
    requires |data| == |ks| && LineOk(ks, l) && l.Row? && Shows(l, o)
    ensures
      var t, c := Text(data, ks, l), o % 16;
      && 61 + c < |t| && 13 + 3 * c < |t|
      && (ks[o] == PKTLOG_EMIT ==> HexValue(t[12 + 3 * c]) * 16 + HexValue(t[13 + 3 * c]) == data[o])
      && (ks[o] == PKTLOG_EMIT ==> if ' ' <= data[o] as char <= '~' then t[61 + c] == data[o] as char else t[61 + c] == '.')
      && (ks[o] == PKTLOG_BLANK ==> t[12 + 3 * c] == t[13 + 3 * c] == t[61 + c] == 'X')
  {
    hide Image, HexValue;
    SameBlockColumns(l.lo, l.hi, o);
    ImageColumns(data, ks, l.lo, l.hi, o);
    ByteFromDigits(data[o]);
  }

  function HexNumber(s: string): int {
    if s == "" then 0 else HexNumber(s[..|s| - 1]) * 16 + HexValue(s[|s| - 1])
  }

  lemma {:induction false} HexDigitsBack(n: nat, w: nat)
    requires n < Pow16(w)
    ensures HexNumber(HexDigits(n, w)) == n
  {
    if w > 0 {
      HexDigitsBack(n / 16, w - 1);
      HexDigitBack(n % 16);
      assert HexDigits(n, w)[..w - 1] == HexDigits(n / 16, w - 1);
    }
  }

  lemma {:induction false} HexWide(n: nat)
    ensures n < Pow16(HexWidth(n))
  {
    if n < 0x1_0000_0000 {
      assert Pow16(4) == 0x1_0000 && Pow16(8) == 16 * Pow16(7) && Pow16(7) == 16 * Pow16(6) && Pow16(6) == 16 * Pow16(5);
    } else {
      HexWide(n / 16);
    }
  }

  lemma {:induction false} HexNarrow(n: nat, k: nat)
    requires n < Pow16(8 + k)
    ensures HexWidth(n) <= 8 + k
  {
    if k == 0 {
      assert Pow16(4) == 0x1_0000 && Pow16(8) == 16 * Pow16(7) && Pow16(7) == 16 * Pow16(6) && Pow16(6) == 16 * Pow16(5);
    } else if n >= 0x1_0000_0000 {
      HexNarrow(n / 16, k - 1);
    }
  }

  /** What %08x prints reads back as the number. */
  lemma HexBack(n: nat)
    ensures HexNumber(Hex(n)) == n && |Hex(n)| >= 8
  {
    HexWide(n);
    HexDigitsBack(n, HexWidth(n));
  }

  /** A row starts with the address of the block of 16 that its bytes are in. Up
      to ten digits, the bytes leave it alone. */
  lemma RowShowsAddress(data: seq<Byte>, ks: seq<BlankType>, l: Line, o: nat)
    requires |data| == |ks| && LineOk(ks, l) && l.Row? && Shows(l, o) && o < 0x100_0000_0000
    ensures
      var t, address := Text(data, ks, l), Hex(o - o % 16);
      && 2 + |address| < |t| && t[..2] == "  " && t[2..2 + |address|] == address && (t[2 + |address|] == ' ' || |address| == 10)
      && HexNumber(address) == o - o % 16
  {
    hide Hex, HexNumber;
    SameBlockColumns(l.lo, l.hi, o);
    HexBack(o - o % 16);
    TenDigits(o - o % 16);
  }

  lemma TenDigits(n: nat)
    requires n < 0x100_0000_0000
    ensures |Hex(n)| <= 10
  {
    assert Pow16(5) == 0x10_0000 && Pow16(10) == 16 * Pow16(9) && Pow16(9) == 16 * Pow16(8) && Pow16(8) == 16 * Pow16(7)
           && Pow16(7) == 16 * Pow16(6) && Pow16(6) == 16 * Pow16(5);
    HexNarrow(n, 2);
  }

  lemma SixteenDigits(n: nat)
    requires n < 0x1_0000_0000_0000_0000
    ensures |Hex(n)| <= 16
  {
    TimesSixteen();
    HexNarrow(n, 8);
  }

  lemma TimesSixteen()
    ensures Pow16(16) == 0x1_0000_0000_0000_0000
  {
    assert Pow16(4) == 0x1_0000;
    assert Pow16(8) == 0x1_0000_0000 by { assert Pow16(6) == 256 * Pow16(4) && Pow16(8) == 256 * Pow16(6); }
    assert Pow16(12) == 0x1_0000_0000_0000 by { assert Pow16(10) == 256 * Pow16(8) && Pow16(12) == 256 * Pow16(10); }
    assert Pow16(14) == 256 * Pow16(12) && Pow16(16) == 256 * Pow16(14);
  }

  function DecimalNumber(s: string): int {
    if s == "" then 0 else DecimalNumber(s[..|s| - 1]) * 10 + (s[|s| - 1] as int - '0' as int)
  }

  lemma {:induction false} DecimalBack(n: nat)
    ensures DecimalNumber(Decimal(n)) == n && |Decimal(n)| > 0
    ensures forall i :: 0 <= i < |Decimal(n)| ==> '0' <= Decimal(n)[i] <= '9'
  {
    var d := Decimal(n);
    if n >= 10 {
      DecimalBack(n / 10);
      assert d[..|d| - 1] == Decimal(n / 10);
    } else {
      assert d[..0] == "";
    }
  }

  /** A line for omitted bytes carries their number. */
  lemma OmittedShowsCount(data: seq<Byte>, ks: seq<BlankType>, l: Line)
    requires |data| == |ks| && LineOk(ks, l) && l.Omitted?
    ensures
      var t, d := Text(data, ks, l), Decimal(l.hi - l.lo);
      && 3 + |d| < |t| && t[..3] == "  (" && t[3..3 + |d|] == d && t[3 + |d|] == ' '
      && DecimalNumber(d) == l.hi - l.lo
  {
    hide Decimal, DecimalNumber;
    DecimalBack(l.hi - l.lo);
    var n, d := l.hi - l.lo, Decimal(l.hi - l.lo);
    Enclosed("  (", d, " byte" + (if n == 1 then "" else "s") + " omitted)\r\n");
  }

  lemma Enclosed(a: string, b: string, c: string)
    ensures var t := a + b + c; t[..|a|] == a && t[|a|..|a| + |b|] == b && (c != "" ==> t[|a| + |b|] == c[0])
  {
  }

  lemma SameBlockColumns(lo: nat, hi: nat, o: nat)
    requires lo <= o < hi && lo / 16 == (hi - 1) / 16
    ensures lo - lo % 16 == o - o % 16 && lo % 16 <= o % 16 <= (hi - 1) % 16
  {
  }
}
