/** gppmap and wmap as settings.c runs them: an in-place parser over a character
    buffer, and a printer that appends to a string buffer. */
module SettingsStore {
  import opened SettingsMap

  datatype Option<T> = None | Some(value: T)

  /** The buffer holds the C string `s`. */
  ghost predicate Holds(buf: array<char>, s: string)
    reads buf
  {
    buf.Length == |s| + 1 && CString(s) && buf[..] == s + [NUL]
  }

  /** From `p` on the buffer is as it was read. */
  ghost predicate Unread(buf: array<char>, s: string, p: nat)
    reads buf
  {
    p <= |s| && buf.Length == |s| + 1 && buf[p..] == s[p..] + [NUL]
  }

  /** strlen and copy: the C string at `i`. */
  method StringAt(buf: array<char>, i: nat) returns (s: string)
    requires i < buf.Length && NUL in buf[i..]
    ensures s == KeyOf(buf[i..])
  {
    var j := i;
    while buf[j] != NUL
      invariant i <= j < buf.Length && NUL in buf[j..]
      invariant KeyOf(buf[i..]) == buf[i..j] + KeyOf(buf[j..])
      decreases buf.Length - j
    {
      KeyStep(buf[i..j], buf[j..]);
      assert buf[j..][1..] == buf[j + 1..];
      assert buf[i..j + 1] == buf[i..j] + [buf[j]];
      j := j + 1;
    }
    s := buf[i..j];
    KeyEnd(s, buf[j..]);
  }

  lemma KeyStep(front: string, rest: string)
    requires rest != "" && rest[0] != NUL && NUL in rest
    ensures front + KeyOf(rest) == front + [rest[0]] + KeyOf(rest[1..]) && rest[1..] != "" && NUL in rest[1..]
  {
    assert rest == [rest[0]] + rest[1..];
  }

  lemma KeyEnd(front: string, rest: string)
    requires rest != "" && rest[0] == NUL
    ensures front + KeyOf(rest) == front
  {
  }

  /** Where the value starts in the raw entry `raw`: after the last NUL. */
  ghost predicate ValueStart(raw: string, val: int) {
    if NUL in raw then 0 < val <= |raw| && raw[val - 1] == NUL && NUL !in raw[val..] else val == -1
  }

  lemma ValueStartGrows(raw: string, val: int, c: char)
    requires ValueStart(raw, val)
    ensures ValueStart(raw + [c], if c == NUL then |raw| + 1 else val)
  {
    if c == NUL { assert (raw + [c])[|raw| + 1..] == []; }
    else if NUL in raw { assert (raw + [c])[val..] == raw[val..] + [c]; }
  }

  lemma ValueText(raw: string, val: int)
    requires ValueStart(raw, val)
    ensures val == -1 ==> ValOf(raw) == ""
    ensures val != -1 ==> ValOf(raw) == raw[val..]
  {
    if val != -1 {
      assert raw == raw[..val] + raw[val..];
      LastNul(raw[..val], raw[val..]);
    }
  }

  lemma BufferAt(buf: array<char>, s: string, p: nat)
    requires Unread(buf, s, p) && CString(s)
    ensures p < buf.Length && buf[p] == (if p < |s| then s[p] else NUL) && (buf[p] == NUL <==> p == |s|)
  {
    assert buf[p] == buf[p..][0];
    if p < |s| { assert s[p] in s; }
  }

  /** How far one round of the inner loop reads, and what it writes. */
  function Width(s: string, p: nat): nat
    requires p < |s|
  {
    if s[p] == '\\' then 2 else 1
  }

  function Unescaped(s: string, p: nat): char
    requires p < |s|
  {
    if s[p] == '=' then NUL else if s[p] == '\\' && p + 1 < |s| then s[p + 1] else s[p]
  }

  lemma ScanStep(s: string, p: nat)
    requires p < |s| && s[p] != ',' && NoDangling(s[p..])
    ensures
      var p' := p + Width(s, p);
      && p' <= |s| && NoDangling(s[p'..])
      && Scan(s[p..]) == ([Unescaped(s, p)] + Scan(s[p'..]).0, Scan(s[p'..]).1)
  {
    var t := s[p..];
    if t[0] == '\\' { assert t[2..] == s[p + 2..]; } else { assert t[1..] == s[p + 1..]; }
  }

  /** One round: the write cursor is behind the read cursor, so nothing unread
      is overwritten. */
  method Round(buf: array<char>, ghost s: string, p0: nat, q0: nat, v0: int) returns (p: nat, q: nat, v: int)
    requires p0 < |s| && s[p0] != ',' && q0 <= p0 && Unread(buf, s, p0) && CString(s) && NoDangling(s[p0..])
    requires ValueStart(buf[..q0], v0)
    modifies buf
    ensures p == p0 + Width(s, p0) <= |s| && q == q0 + 1 && Unread(buf, s, p)
    ensures buf[..q] == old(buf[..q0]) + [Unescaped(s, p0)]
    ensures ValueStart(buf[..q], v)
  {
    hide Unread, ValueStart, Scan, NoDangling;
    ScanStep(s, p0);
    BufferAt(buf, s, p0);
    p, q, v := p0, q0, v0;
    var c := buf[p];
    p := p + 1;
    if c == '=' { c := NUL; }
    if c == '\\' {
      UnreadOn(buf, s, p0, p);
      BufferAt(buf, s, p);
      c := buf[p];
      p := p + 1;
    }
    UnreadOn(buf, s, p0, p);
    ValueStartGrows(buf[..q], v, c);
    Write(buf, s, p, q, c);
    q := q + 1;
    if c == NUL { v := q; }
  }

  lemma UnreadOn(buf: array<char>, s: string, p0: nat, p: nat)
    requires Unread(buf, s, p0) && p0 <= p <= |s|
    ensures Unread(buf, s, p)
  {
    assert buf[p..] == buf[p0..][p - p0..];
    assert s[p..] + [NUL] == (s[p0..] + [NUL])[p - p0..];
  }

  /** Writing behind the read cursor. */
  method Write(buf: array<char>, ghost s: string, ghost p: nat, q: nat, c: char)
    requires q < p && Unread(buf, s, p)
    modifies buf
    ensures Unread(buf, s, p) && buf[..q + 1] == old(buf[..q]) + [c]
  {
    ghost var unread := buf[p..];
    buf[q] := c;
    assert buf[p..] == unread;
  }

  lemma Accumulate(a: string, c: char, b: string)
    ensures a + ([c] + b) == (a + [c]) + b
  {
  }

  /** The inner loop of gppmap with what follows it: one entry is unescaped into
      the front of the buffer, and what is unread stays as it was. */
  method ScanInPlace(buf: array<char>, ghost s: string, p0: nat) returns (p: nat, key: string, val: string)
    requires p0 < |s| && Unread(buf, s, p0) && CString(s) && NoDangling(s[p0..])
    modifies buf
    ensures p0 < p <= |s| && Unread(buf, s, p) && NoDangling(s[p..])
    ensures s[p..] == Scan(s[p0..]).1
    ensures Entry(key, val) == Entry(KeyOf(Scan(s[p0..]).0), ValOf(Scan(s[p0..]).0))
  {
    hide Scan, NoDangling, KeyOf, ValOf;
    p := p0;
    var q, v := 0, -1;
    BufferAt(buf, s, p);
    Accumulated(buf[..q], Scan(s[p..]).0);
    while buf[p] != NUL && buf[p] != ','
      invariant p0 <= p <= |s| && 0 <= q <= p - p0 && Unread(buf, s, p) && NoDangling(s[p..]) && p < buf.Length
      invariant Scan(s[p0..]) == (buf[..q] + Scan(s[p..]).0, Scan(s[p..]).1)
      invariant ValueStart(buf[..q], v)
      decreases |s| - p
    {
      BufferAt(buf, s, p);
      ScanStep(s, p);
      Accumulate(buf[..q], Unescaped(s, p), Scan(s[p + Width(s, p)..]).0);
      p, q, v := Round(buf, s, p, q, v);
      BufferAt(buf, s, p);
    }
    p, key, val := FinishEntry(buf, s, p0, p, q, v);
  }

  lemma Accumulated(a: string, b: string)
    requires a == ""
    ensures a + b == b
  {
  }

  /** After the inner loop: skip the comma, terminate the entry, take out key and
      value. */
  method FinishEntry(buf: array<char>, ghost s: string, ghost p0: nat, p1: nat, q: nat, v: int)
    returns (p: nat, key: string, val: string)
    requires p0 <= p1 <= |s| && q <= p1 - p0 && Unread(buf, s, p1) && CString(s) && NoDangling(s[p1..]) && p0 < |s|
    requires p1 < buf.Length && (buf[p1] == NUL || buf[p1] == ',') && ValueStart(buf[..q], v)
    requires Scan(s[p0..]) == (buf[..q] + Scan(s[p1..]).0, Scan(s[p1..]).1)
    modifies buf
    ensures p0 < p <= |s| && Unread(buf, s, p) && NoDangling(s[p..])
    ensures s[p..] == Scan(s[p0..]).1
    ensures Entry(key, val) == Entry(KeyOf(Scan(s[p0..]).0), ValOf(Scan(s[p0..]).0))
  {
    hide KeyOf, ValOf;
    BufferAt(buf, s, p1);
    EntryEnd(s, p1);
    ghost var raw := buf[..q];
    ValueText(raw, v);
    p := p1;
    if buf[p] == ',' {
      p := p + 1;
      assert buf[p..] == buf[p1..][1..];
    }
    var w: nat := if v == -1 then q else v;
    assert raw + "" == raw && raw[q..] == "";
    key, val := CutEntry(buf, s, raw, p, q, w);
  }

  /** What ends an entry. */
  lemma EntryEnd(s: string, p: nat)
    requires p <= |s| && NoDangling(s[p..]) && (p == |s| || s[p] == ',')
    ensures Scan(s[p..]) == ("", s[if p == |s| then p else p + 1..]) && NoDangling(s[if p == |s| then p else p + 1..])
  {
    if p < |s| { assert s[p..][1..] == s[p + 1..]; }
  }

  /** Terminates the entry in the buffer and copies key and value out. */
  method CutEntry(buf: array<char>, ghost s: string, ghost raw: string, ghost p: nat, q: nat, w: nat) returns (key: string, val: string)
    requires Unread(buf, s, p) && q <= p && (q == p ==> p == |s|) && q < buf.Length && buf[..q] == raw
    requires w <= q && NUL !in raw[w..]
    modifies buf
    ensures Unread(buf, s, p) && key == KeyOf(raw) && val == raw[w..]
  {
    ghost var unread := buf[p..];
    buf[q] := NUL;
    assert buf[p..] == unread;
    assert buf[0..] == raw + ([NUL] + buf[q + 1..]);
    assert buf[w..] == raw[w..] + ([NUL] + buf[q + 1..]);
    KeyCut(raw, buf[q + 1..]);
    KeyCut(raw[w..], buf[q + 1..]);
    KeyAll(raw[w..]);
    key := StringAt(buf, 0);
    val := StringAt(buf, w);
  }

  lemma KeyAll(raw: string)
    requires NUL !in raw
    ensures KeyOf(raw) == raw
  {
    KeyStops(raw, "");
    assert raw + "" == raw;
  }

  lemma {:induction false} KeyCut(raw: string, rest: string)
    ensures KeyOf(raw + ([NUL] + rest)) == KeyOf(raw) && NUL in raw + ([NUL] + rest)
  {
    var t := raw + ([NUL] + rest);
    assert t[|raw|] == NUL;
    if raw != "" { assert t[1..] == raw[1..] + ([NUL] + rest); KeyCut(raw[1..], rest); }
  }

  /** The subkeys of one conf key. */
  class StrConf {
    var strs: map<string, string>

    /** gppmap. The setting must not end in a lone backslash, after which the
        parser would read beyond its buffer. */
    method Gppmap(setting: Option<string>, portfwd: bool) returns (found: bool)
      requires setting.Some? ==> CString(setting.value) && NoDangling(setting.value)
      modifies this
      ensures found <==> setting.Some?
      ensures strs == if found then Store(map[], portfwd, Parse(setting.value)) else map[]
    {
      while strs != map[]
        decreases |strs|
      {
        var key :| key in strs;
        strs := strs - {key};
      }
      if setting.None? { return false; }
      var s := setting.value;
      var buf := new char[|s| + 1](i => if 0 <= i < |s| then s[i] else NUL);
      assert buf[..] == s + [NUL];
      var p := 0;
      assert buf[0..] == buf[..] && s[0..] == s;
      while p < |s|
        invariant p <= |s| && Unread(buf, s, p) && NoDangling(s[p..]) && fresh(buf)
        invariant Store(strs, portfwd, Parse(s[p..])) == Store(map[], portfwd, Parse(s))
      {
        ghost var p0 := p;
        var key, val;
        p, key, val := ScanInPlace(buf, s, p);
        ParseStep(strs, portfwd, s[p0..]);
        if portfwd && 'D' in key {
          strs := strs[ReplaceFirst(key, 'D', 'L') := "D"];
        } else {
          strs := strs[key := val];
        }
      }
      assert s[p..] == "";
      return true;
    }
  }

  lemma ParseStep(conf: map<string, string>, portfwd: bool, s: string)
    requires s != ""
    ensures
      var e := Load(portfwd, Entry(KeyOf(Scan(s).0), ValOf(Scan(s).0)));
      Store(conf, portfwd, Parse(s)) == Store(conf[e.key := e.val], portfwd, Parse(Scan(s).1))
  {
    assert Parse(s)[1..] == Parse(Scan(s).1);
  }

  /** The loops of wmap that append an escaped string. */
  method PutEscaped(sb: string, s: string) returns (r: string)
    ensures r == sb + Escape(s)
  {
    r := sb;
    var i := 0;
    while i < |s|
      invariant 0 <= i <= |s| && sb + Escape(s) == r + Escape(s[i..])
    {
      assert s[i..][1..] == s[i + 1..];
      if s[i] == '=' || s[i] == ',' || s[i] == '\\' { r := r + ['\\']; }
      r := r + [s[i]];
      i := i + 1;
    }
  }

  method PutEntry(sb: string, e: Entry, includeValues: bool) returns (r: string)
    ensures r == sb + PrintEntry(e, includeValues)
  {
    r := PutEscaped(sb, e.key);
    if includeValues {
      r := r + "=";
      r := PutEscaped(r, e.val);
    }
  }

  /** wmap over the entries in the order in which conf_get_str_strs gives them. */
  method Wmap(es: seq<Entry>, portfwd: bool, includeValues: bool) returns (sb: string)
    ensures sb == Print(SaveAll(portfwd, es), includeValues)
  {
    hide PrintEntry, ReplaceFirst;
    sb := "";
    var i := 0;
    ghost var xs := SaveAll(portfwd, es);
    assert xs[0..] == xs;
    while i < |es|
      invariant 0 <= i <= |es| && PrintOn(sb, xs[i..], includeValues) == Print(xs, includeValues)
    {
      var key, val := es[i].key, es[i].val;
      if portfwd && val == "D" {
        key, val := ReplaceFirst(key, 'L', 'D'), "";
      }
      assert xs[i] == Entry(key, val) && xs[i..][1..] == xs[i + 1..];
      sb := PutEntry(sb + if sb == "" then "" else ",", Entry(key, val), includeValues);
      i := i + 1;
    }
  }

  /** A map with its values is written and read back: the whole way through both
      loops, for port forwardings and for every other map. */
  method SaveAndLoad(es: seq<Entry>, ghost m: map<string, string>, portfwd: bool) returns (back: map<string, string>)
    requires Enumerates(es, m) && CStrings(m)
    ensures portfwd ==> (back == m <==> AllReloadable(m))
    ensures !portfwd ==> back == m
  {
    hide Print, Parse, Store, SaveAll, Enumerates, Reloadable;
    PrintReadable(portfwd, es, m, true);
    if portfwd { ForwardingRoundTrip(es, m); } else { MapRoundTrip(es, m); }
    var sb := Wmap(es, portfwd, true);
    var conf := new StrConf;
    var _ := conf.Gppmap(Some(sb), portfwd);
    back := conf.strs;
  }
}
