/** The loop of log_packet that dumps the packet body: a row buffer written in
    place, a cursor over the blanking areas, and a count of omitted bytes. */
module HexDump {
  import opened Bytes
  import opened HexDumpRules

  /** The largest packet length: a 64-bit size_t. */
  const SIZE_MAX := 0xffff_ffff_ffff_ffff

  class Dumper {
    var dumpdata: array<char>
    /** What logwrite has been given, call by call. */
    var out: seq<string>

    constructor ()
      ensures dumpdata.Length == 128 && out == [] && fresh(dumpdata)
    {
      dumpdata := new char[128];
      out := [];
    }

    /** The buffer shows the offsets from `lo` to `hi`. */
    ghost predicate Shown(data: seq<Byte>, ks: seq<BlankType>, lo: nat, hi: nat)
      reads `dumpdata, dumpdata
    {
      && dumpdata.Length == 128 && lo <= hi <= |data| == |ks|
      && forall i :: 0 <= i < LINE_WIDTH ==> dumpdata[i] == Image(data, ks, lo, hi, i)
    }

    /** sprintf of an empty row for offset `p`. */
    method InitRow(ghost data: seq<Byte>, ghost ks: seq<BlankType>, p: nat)
      requires dumpdata.Length == 128 && p <= |data| == |ks| <= SIZE_MAX
      modifies dumpdata
      ensures Shown(data, ks, p, p)
    {
      hide Hex;
      SixteenDigits(p - p % 16);
      HexBack(p - p % 16);
      var address := Hex(p - p % 16);
      var i := 0;
      while i < 2 + |address| + 1 + 3 * 16 + 2 + 16
        invariant 0 <= i <= 2 + |address| + 1 + 3 * 16 + 2 + 16
        invariant forall j :: 0 <= j < i && j < LINE_WIDTH ==> dumpdata[j] == Image(data, ks, p, p, j)
      {
        dumpdata[i] := if 2 <= i < 2 + |address| then address[i - 2] else ' ';
        i := i + 1;
      }
    }

    /** The three characters of the current byte. */
    method PutByte(data: seq<Byte>, ghost ks: seq<BlankType>, ghost lo: nat, p: nat, kind: BlankType)
      requires p < |data| && Shown(data, ks, lo, p) && kind == ks[p] && lo / 16 == p / 16
      modifies dumpdata
      ensures Shown(data, ks, lo, p + 1)
    {
      hide HexChar, TextChar, Blankline;
      var c := data[p];
      var smalldata := [HexChar(c, kind, 0), HexChar(c, kind, 1)];
      forall i | 0 <= i < LINE_WIDTH
        ensures Image(data, ks, lo, p + 1, i) ==
                if i == 12 + 3 * (p % 16) then HexChar(c, kind, 0)
                else if i == 13 + 3 * (p % 16) then HexChar(c, kind, 1)
                else if i == 61 + p % 16 then TextChar(c, kind)
                else Image(data, ks, lo, p, i)
      {
        ImageGrows(data, ks, lo, p, i);
      }
      dumpdata[10 + 2 + 3 * (p % 16)] := smalldata[0];
      dumpdata[10 + 2 + 3 * (p % 16) + 1] := smalldata[1];
      dumpdata[10 + 1 + 3 * 16 + 2 + p % 16] := TextChar(c, kind);
    }

    /** The finished row goes out. */
    method FlushRow(ghost data: seq<Byte>, ghost ks: seq<BlankType>, ghost lo: nat, ghost hi: nat, outputPos: nat)
      requires Shown(data, ks, lo, hi) && lo < hi && outputPos == (hi - 1) % 16 + 1
      modifies this`out, dumpdata
      ensures out == old(out) + [RowText(data, ks, lo, hi)] && dumpdata.Length == 128
    {
      hide Image;
      var end := 10 + 1 + 3 * 16 + 2 + outputPos;
      dumpdata[end] := '\r';
      dumpdata[end + 1] := '\n';
      assert dumpdata[..end] + "\r\n" == dumpdata[..end + 2];
      assert forall i :: 0 <= i < end ==> dumpdata[i] == Image(data, ks, lo, hi, i);
      assert dumpdata[..end + 2] == RowText(data, ks, lo, hi);
      out := out + [dumpdata[..end + 2]];
    }

    method FlushOmitted(n: nat)
      modifies this`out
      ensures out == old(out) + [OmitText(n)]
    {
      out := out + [OmitText(n)];
    }

    /** The line being gathered at `p` began at `s`: a count of omitted bytes, a
        row in the buffer, or nothing yet. */
    ghost predicate Gathering(data: seq<Byte>, ks: seq<BlankType>, s: nat, p: nat, omitted: nat, outputPos: nat)
      reads `dumpdata, dumpdata
    {
      && dumpdata.Length == 128 && s <= p <= |data| == |ks|
      && (omitted == 0 && outputPos == 0 ==> s == p)
      && (omitted > 0 ==> outputPos == 0 && s + omitted == p && AllOmitted(ks, s, p))
      && (outputPos > 0 ==> outputPos == p % 16 && s < p < |ks| && NoneOmitted(ks, s, p) && s / 16 == p / 16
                            && Shown(data, ks, s, p))
    }

    /** The line being gathered is over, and goes out. */
    method EndOmitted(ghost data: seq<Byte>, ghost ks: seq<BlankType>, ghost s: nat, ghost q: nat, n: nat)
      requires s < q <= |ks| == |data| && s + n == q && AllOmitted(ks, s, q) && (q < |ks| ==> ks[q] != PKTLOG_OMIT)
      modifies this`out
      ensures out + Render(data, ks, Lines(ks, q)) == old(out) + Render(data, ks, Lines(ks, s))
    {
      hide Lines, Render, OmitText;
      OmittedLineEnds(data, ks, s, q);
      FlushOmitted(n);
    }

    method EndRow(ghost data: seq<Byte>, ghost ks: seq<BlankType>, ghost s: nat, ghost q: nat, outputPos: nat)
      requires Shown(data, ks, s, q) && s < q && outputPos == (q - 1) % 16 + 1
      requires NoneOmitted(ks, s, q) && s / 16 == (q - 1) / 16 && (q == |ks| || q % 16 == 0 || ks[q] == PKTLOG_OMIT)
      modifies this`out, dumpdata
      ensures out + Render(data, ks, Lines(ks, q)) == old(out) + Render(data, ks, Lines(ks, s)) && dumpdata.Length == 128
    {
      hide Lines, Render, RowText;
      RowLineEnds(data, ks, s, q);
      FlushRow(data, ks, s, q, outputPos);
    }

    /** One byte of the packet: what was being omitted is reported first if this
        byte ends it, and the row goes out if the byte completes it. */
    method DumpByte(data: seq<Byte>, ghost ks: seq<BlankType>, ghost s: nat, p: nat, kind: BlankType, wasOmitted: nat, wasPos: nat)
      returns (ghost t: nat, omitted: nat, outputPos: nat)
      requires Gathering(data, ks, s, p, wasOmitted, wasPos) && p < |ks| <= SIZE_MAX && kind == ks[p]
      modifies this`out, dumpdata
      ensures Gathering(data, ks, t, p + 1, omitted, outputPos)
      ensures out + Render(data, ks, Lines(ks, t)) == old(out) + Render(data, ks, Lines(ks, s))
    {
      hide Image, Lines, Render, RowText, OmitText;
      t, omitted, outputPos := s, wasOmitted, wasPos;
      if kind != PKTLOG_OMIT && omitted > 0 {
        EndOmitted(data, ks, s, p, omitted);
        t, omitted := p, 0;
      }
      if outputPos == 0 && omitted == 0 {
        InitRow(data, ks, p);
      }
      ghost var hi := p;
      if kind == PKTLOG_OMIT {
        omitted := omitted + 1;
      } else {
        PutByte(data, ks, t, p, kind);
        outputPos := p % 16 + 1;
        hi := p + 1;
      }
      if (p + 1) % 16 == 0 || p + 1 == |data| || omitted > 0 {
        if outputPos > 0 {
          EndRow(data, ks, t, hi, outputPos);
          t, outputPos := hi, 0;
        }
      }
    }

    /** The body dump of log_packet. */
    method DumpBody(data: seq<Byte>, blanks: seq<Blank>)
      requires Increasing(blanks) && |data| <= SIZE_MAX && dumpdata.Length == 128
      modifies this`out, dumpdata
      ensures out == old(out) + Render(data, Kinds(|data|, blanks), Lines(Kinds(|data|, blanks), 0))
    {
      hide Lines, Render, OmitText, Shown, NoneOmitted;
      ghost var ks, s := Kinds(|data|, blanks), 0;
      var p, b, omitted, outputPos := 0, 0, 0, 0;
      while p < |data|
        invariant p <= |data| && b <= |blanks|
        invariant forall i :: 0 <= i < b ==> blanks[i].offset + blanks[i].len <= p
        invariant Gathering(data, ks, s, p, omitted, outputPos)
        invariant out + Render(data, ks, Lines(ks, s)) == old(out) + Render(data, ks, Lines(ks, 0))
      {
        while b < |blanks| && p >= blanks[b].offset + blanks[b].len
          invariant b <= |blanks|
          invariant forall i :: 0 <= i < b ==> blanks[i].offset + blanks[i].len <= p
        {
          b := b + 1;
        }
        var kind := PKTLOG_EMIT;
        if b < |blanks| && p >= blanks[b].offset && p < blanks[b].offset + blanks[b].len {
          kind := blanks[b].kind;
        }
        CursorIsLookup(blanks, b, p);
        s, omitted, outputPos := DumpByte(data, ks, s, p, kind, omitted, outputPos);
        p := p + 1;
      }
      if omitted > 0 {
        EndOmitted(data, ks, s, p, omitted);
      }
      NoLineLeft(data, ks);
    }
  }

  lemma ImageGrows(data: seq<Byte>, ks: seq<BlankType>, lo: nat, p: nat, i: nat)
    requires lo <= p < |data| == |ks| && i < LINE_WIDTH && lo / 16 == p / 16
    ensures Image(data, ks, lo, p + 1, i) ==
            if i == 12 + 3 * (p % 16) then HexChar(data[p], ks[p], 0)
            else if i == 13 + 3 * (p % 16) then HexChar(data[p], ks[p], 1)
            else if i == 61 + p % 16 then TextChar(data[p], ks[p])
            else Image(data, ks, lo, p, i)
  {
    hide HexChar, TextChar, Blankline;
    assert lo - lo % 16 + p % 16 == p;
  }
}
