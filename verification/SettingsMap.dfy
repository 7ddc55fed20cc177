/** The stored form of a name/value map in settings.c: what wmap prints, what
    gppmap reads back, and when the two agree. */
module SettingsMap {

  const NUL: char := '\0'

  /** A C string: no NUL inside. */
  ghost predicate CString(s: string) { NUL !in s }

  datatype Entry = Entry(key: string, val: string)

  // ---------------------------------------------------------------- printing

  function Escape(s: string): string {
    if s == "" then ""
    else (if s[0] == '=' || s[0] == ',' || s[0] == '\\' then ['\\', s[0]] else [s[0]]) + Escape(s[1..])
  }

  function PrintEntry(e: Entry, includeValues: bool): string {
    Escape(e.key) + if includeValues then "=" + Escape(e.val) else ""
  }

  /** The string buffer after `es` have been added to `sb`; a comma goes between
      entries unless the buffer is still empty. */
  function PrintOn(sb: string, es: seq<Entry>, includeValues: bool): string
    decreases |es|
  {
    if es == [] then sb
    else PrintOn(sb + (if sb == "" then "" else ",") + PrintEntry(es[0], includeValues), es[1..], includeValues)
  }

  function Print(es: seq<Entry>, includeValues: bool): string { PrintOn("", es, includeValues) }

  // ----------------------------------------------------------------- parsing

  /** One entry of the stored string: what the inner loop of gppmap leaves in
      the buffer, with a NUL for each separating '=', and what it leaves unread. */
  function Scan(s: string): (r: (string, string))
    ensures |r.1| <= |s| && (s != "" ==> |r.1| < |s|)
  {
    if s == "" then ("", "")
    else if s[0] == ',' then ("", s[1..])
    else if s[0] == '\\' then
      if |s| == 1 then ("\\", "") else
      var (raw, rest) := Scan(s[2..]);
      ([s[1]] + raw, rest)
    else
      var (raw, rest) := Scan(s[1..]);
      ([if s[0] == '=' then NUL else s[0]] + raw, rest)
  }

  /** No backslash at the very end: gppmap would read past the terminator. */
  predicate NoDangling(s: string) {
    if s == "" then true
    else if s[0] == '\\' then |s| >= 2 && NoDangling(s[2..])
    else NoDangling(s[1..])
  }

  /** Up to the first NUL. */
  function KeyOf(raw: string): string {
    if raw == "" || raw[0] == NUL then "" else [raw[0]] + KeyOf(raw[1..])
  }

  /** From after the last NUL on; empty if there is none. */
  function ValOf(raw: string): string {
    if NUL !in raw then "" else AfterLastNul(raw)
  }

  function AfterLastNul(raw: string): string {
    if raw == "" then ""
    else if raw[|raw| - 1] == NUL then ""
    else AfterLastNul(raw[..|raw| - 1]) + [raw[|raw| - 1]]
  }

  function Parse(s: string): seq<Entry>
    decreases |s|
  {
    if s == "" then []
    else
      var (raw, rest) := Scan(s);
      [Entry(KeyOf(raw), ValOf(raw))] + Parse(rest)
  }

  // ----------------------------------------------------- the dynamic forwards

  function ReplaceFirst(s: string, a: char, b: char): string {
    if s == "" then "" else if s[0] == a then [b] + s[1..] else [s[0]] + ReplaceFirst(s[1..], a, b)
  }

  /** wmap's translation of a port forwarding. */
  function Save(portfwd: bool, e: Entry): Entry {
    if portfwd && e.val == "D" then Entry(ReplaceFirst(e.key, 'L', 'D'), "") else e
  }

  /** gppmap's translation back. */
  function Load(portfwd: bool, e: Entry): Entry {
    if portfwd && 'D' in e.key then Entry(ReplaceFirst(e.key, 'D', 'L'), "D") else e
  }

  function SaveAll(portfwd: bool, es: seq<Entry>): (r: seq<Entry>)
    ensures |r| == |es|
  {
    seq(|es|, i requires 0 <= i < |es| => Save(portfwd, es[i]))
  }

  /** conf_set_str_str for each entry in turn. */
  function Store(conf: map<string, string>, portfwd: bool, es: seq<Entry>): map<string, string>
    decreases |es|
  {
    if es == [] then conf
    else
      var e := Load(portfwd, es[0]);
      Store(conf[e.key := e.val], portfwd, es[1..])
  }

  // -------------------------------------------------------------- round trip

  predicate Special(c: char) { c == '=' || c == ',' || c == '\\' }

  lemma ScanPlain(c: char, rest: string)
    requires !Special(c)
    ensures Scan([c] + rest) == ([c] + Scan(rest).0, Scan(rest).1)
  {
    assert ([c] + rest)[1..] == rest;
  }

  lemma ScanEscaped(c: char, rest: string)
    ensures Scan(['\\', c] + rest) == ([c] + Scan(rest).0, Scan(rest).1)
  {
    assert (['\\', c] + rest)[2..] == rest;
  }

  lemma ScanSeparator(rest: string)
    ensures Scan("=" + rest) == ([NUL] + Scan(rest).0, Scan(rest).1)
  {
    assert ("=" + rest)[1..] == rest;
  }

  lemma EscapeOne(k: string, tail: string)
    requires k != ""
    ensures Escape(k) + tail == (if Special(k[0]) then ['\\', k[0]] else [k[0]]) + (Escape(k[1..]) + tail)
  {
  }

  lemma {:induction false} ScanEscape(k: string, tail: string)
    ensures Scan(Escape(k) + tail) == (k + Scan(tail).0, Scan(tail).1)
  {
    hide Scan, Escape;
    if k == "" {
      EscapeEmpty();
      assert Escape(k) + tail == tail;
      assert k + Scan(tail).0 == Scan(tail).0;
    } else {
      EscapeOne(k, tail);
      ScanEscape(k[1..], tail);
      if Special(k[0]) { ScanEscaped(k[0], Escape(k[1..]) + tail); } else { ScanPlain(k[0], Escape(k[1..]) + tail); }
      assert [k[0]] + (k[1..] + Scan(tail).0) == k + Scan(tail).0;
    }
  }

  lemma EscapeEmpty()
    ensures Escape("") == ""
  {
  }

  lemma {:induction false} RawParts(k: string, v: string)
    requires CString(k) && CString(v)
    ensures KeyOf(k) == k && ValOf(k) == ""
    ensures KeyOf(k + [NUL] + v) == k && ValOf(k + [NUL] + v) == v
  {
    KeyStops(k, "");
    assert k + "" == k;
    KeyStops(k, [NUL] + v);
    assert k + ([NUL] + v) == k + [NUL] + v;
    LastNul(k + [NUL], v);
  }

  lemma {:induction false} KeyStops(k: string, tail: string)
    requires CString(k) && (tail == "" || tail[0] == NUL)
    ensures KeyOf(k + tail) == k
  {
    if k != "" { assert (k + tail)[1..] == k[1..] + tail; KeyStops(k[1..], tail); }
    else { assert k + tail == tail; }
  }

  lemma {:induction false} LastNul(front: string, v: string)
    requires CString(v) && front != "" && front[|front| - 1] == NUL
    ensures AfterLastNul(front + v) == v
  {
    if v == "" { assert front + v == front; }
    else {
      var n := |v| - 1;
      assert (front + v)[..|front + v| - 1] == front + v[..n];
      LastNul(front, v[..n]);
    }
  }

  function RawOf(e: Entry, includeValues: bool): string {
    e.key + if includeValues then [NUL] + e.val else ""
  }

  /** Reading one printed entry, followed by a comma or by nothing. */
  lemma ScanEntry(e: Entry, includeValues: bool, tail: string)
    requires tail == "" || tail[0] == ','
    ensures Scan(PrintEntry(e, includeValues) + tail) == (RawOf(e, includeValues), if tail == "" then "" else tail[1..])
  {
    assert Scan(tail) == ("", if tail == "" then "" else tail[1..]);
    hide Scan, Escape;
    if includeValues {
      assert PrintEntry(e, true) + tail == Escape(e.key) + ("=" + (Escape(e.val) + tail));
      ScanEscape(e.key, "=" + (Escape(e.val) + tail));
      ScanSeparator(Escape(e.val) + tail);
      ScanEscape(e.val, tail);
      assert e.val + "" == e.val;
    } else {
      assert PrintEntry(e, false) + tail == Escape(e.key) + tail;
      ScanEscape(e.key, tail);
    }
  }

  lemma RawEntry(e: Entry, includeValues: bool)
    requires CString(e.key) && CString(e.val)
    ensures Entry(KeyOf(RawOf(e, includeValues)), ValOf(RawOf(e, includeValues))) == if includeValues then e else Entry(e.key, "")
  {
    RawParts(e.key, e.val);
    assert e.key + ([NUL] + e.val) == e.key + [NUL] + e.val;
    assert e.key + "" == e.key;
  }

  /** Every entry is printed as something. */
  ghost predicate Visible(es: seq<Entry>, includeValues: bool) {
    && (forall e :: e in es ==> CString(e.key) && CString(e.val))
    && (includeValues || forall e :: e in es ==> e.key != "")
  }

  /** What comes after the first entry in the buffer. */
  function Tail(es: seq<Entry>, includeValues: bool): string {
    if es == [] then "" else "," + PrintEntry(es[0], includeValues) + Tail(es[1..], includeValues)
  }

  lemma {:induction false} PrintOnTail(sb: string, es: seq<Entry>, includeValues: bool)
    requires sb != ""
    ensures PrintOn(sb, es, includeValues) == sb + Tail(es, includeValues)
    decreases |es|
  {
    hide PrintEntry;
    if es != [] {
      var sb' := sb + "," + PrintEntry(es[0], includeValues);
      PrintOnTail(sb', es[1..], includeValues);
      assert sb' + Tail(es[1..], includeValues) == sb + Tail(es, includeValues);
    } else {
      assert sb + "" == sb;
    }
  }

  lemma PrintEntryVisible(e: Entry, includeValues: bool)
    requires includeValues || e.key != ""
    ensures PrintEntry(e, includeValues) != ""
  {
  }

  function Written(es: seq<Entry>, includeValues: bool): seq<Entry> {
    seq(|es|, i requires 0 <= i < |es| => if includeValues then es[i] else Entry(es[i].key, ""))
  }

  lemma {:induction false} ParseTail(es: seq<Entry>, includeValues: bool)
    requires Visible(es, includeValues) && es != []
    ensures Parse(PrintEntry(es[0], includeValues) + Tail(es[1..], includeValues)) == Written(es, includeValues)
    decreases |es|
  {
    hide KeyOf, ValOf, Escape, PrintEntry, Scan;
    var tail := Tail(es[1..], includeValues);
    ScanEntry(es[0], includeValues, tail);
    RawEntry(es[0], includeValues);
    PrintEntryVisible(es[0], includeValues);
    if |es| > 1 {
      ParseTail(es[1..], includeValues);
      assert tail[1..] == PrintEntry(es[1..][0], includeValues) + Tail(es[1..][1..], includeValues);
      assert Written(es, includeValues) == [Written(es, includeValues)[0]] + Written(es[1..], includeValues);
    }
  }

  /** Reading what was printed gives back the entries in order. */
  lemma ParsePrint(es: seq<Entry>, includeValues: bool)
    requires Visible(es, includeValues)
    ensures Parse(Print(es, includeValues)) == Written(es, includeValues)
  {
    if es != [] {
      PrintEntryVisible(es[0], includeValues);
      var first := PrintEntry(es[0], includeValues);
      assert "" + "" + first == first;
      PrintOnTail(first, es[1..], includeValues);
      ParseTail(es, includeValues);
    }
  }

  // ----------------------------------------------------------- maps, not lists

  /** `es` lists the map, each key once, as conf_get_str_strs walks it. */
  ghost predicate Enumerates(es: seq<Entry>, m: map<string, string>) {
    && (forall i, j :: 0 <= i < j < |es| ==> es[i].key != es[j].key)
    && (forall e :: e in es ==> e.key in m && m[e.key] == e.val)
    && (forall k :: k in m ==> Entry(k, m[k]) in es)
  }

  ghost predicate CStrings(m: map<string, string>) {
    forall k :: k in m ==> CString(k) && CString(m[k])
  }

  function LoadAll(portfwd: bool, es: seq<Entry>): (r: seq<Entry>)
    ensures |r| == |es|
  {
    seq(|es|, i requires 0 <= i < |es| => Load(portfwd, es[i]))
  }

  function Put(conf: map<string, string>, es: seq<Entry>): map<string, string>
    decreases |es|
  {
    if es == [] then conf else Put(conf[es[0].key := es[0].val], es[1..])
  }

  lemma {:induction false} StoreIsPut(conf: map<string, string>, portfwd: bool, es: seq<Entry>)
    ensures Store(conf, portfwd, es) == Put(conf, LoadAll(portfwd, es))
    decreases |es|
  {
    if es != [] {
      var e := Load(portfwd, es[0]);
      assert LoadAll(portfwd, es)[1..] == LoadAll(portfwd, es[1..]);
      StoreIsPut(conf[e.key := e.val], portfwd, es[1..]);
    }
  }

  /** Whatever is stored under a key was put there by some entry. */
  lemma {:induction false} PutFrom(conf: map<string, string>, es: seq<Entry>, k: string)
    ensures k in Put(conf, es) ==>
              Entry(k, Put(conf, es)[k]) in es || (k in conf && conf[k] == Put(conf, es)[k])
    ensures k in conf || (exists e :: e in es && e.key == k) ==> k in Put(conf, es)
    decreases |es|
  {
    if es != [] {
      assert es == [es[0]] + es[1..];
      PutFrom(conf[es[0].key := es[0].val], es[1..], k);
      if e :| e in es && e.key == k && e != es[0] { assert e in es[1..]; }
    }
  }

  lemma {:induction false} PutDistinct(conf: map<string, string>, es: seq<Entry>, k: string)
    requires forall i, j :: 0 <= i < j < |es| ==> es[i].key != es[j].key
    ensures forall e :: e in es && e.key == k ==> k in Put(conf, es) && Put(conf, es)[k] == e.val
    ensures k in conf && (forall e :: e in es ==> e.key != k) ==> k in Put(conf, es) && Put(conf, es)[k] == conf[k]
    decreases |es|
  {
    if es != [] {
      var conf' := conf[es[0].key := es[0].val];
      assert es == [es[0]] + es[1..];
      PutDistinct(conf', es[1..], k);
      forall e | e in es && e.key == k ensures k in Put(conf, es) && Put(conf, es)[k] == e.val {
        if e != es[0] { assert e in es[1..]; }
        else { forall d | d in es[1..] ensures d.key != k { var j :| 0 <= j < |es| - 1 && es[1..][j] == d; assert es[j + 1] == d; } }
      }
    }
  }

  /** Putting the entries of a map into an empty one gives the map. */
  lemma PutEnumerated(es: seq<Entry>, m: map<string, string>)
    requires Enumerates(es, m)
    ensures Put(map[], es) == m
  {
    forall k ensures k in Put(map[], es) <==> k in m {
      PutFrom(map[], es, k);
      if k in m { assert Entry(k, m[k]) in es; }
    }
    forall k | k in m ensures Put(map[], es)[k] == m[k] {
      PutDistinct(map[], es, k);
      assert Entry(k, m[k]) in es;
    }
  }

  // ------------------------------------------- which forwardings come back

  /** strchr: where `c` first occurs, or the length. */
  function First(s: string, c: char): (i: nat)
    ensures i <= |s| && (i < |s| ==> s[i] == c) && forall j :: 0 <= j < i ==> s[j] != c
  {
    if s == "" then 0
    else if s[0] == c then 0
    else
      var i := First(s[1..], c);
      assert forall j :: 0 < j < i + 1 ==> s[j] == s[1..][j - 1];
      i + 1
  }

  /** How a dynamic forwarding is stored: under a D for its first L, and without a
      value; and how one is loaded. Nothing else is translated. */
  lemma DynamicStored(portfwd: bool, e: Entry)
    ensures
      var r := Save(portfwd, e);
      if portfwd && e.val == "D" then
        && r.val == "" && |r.key| == |e.key|
        && forall i :: 0 <= i < |e.key| ==> r.key[i] == if e.key[i] == 'L' && 'L' !in e.key[..i] then 'D' else e.key[i]
      else r == e
    ensures
      var r := Load(portfwd, e);
      if portfwd && 'D' in e.key then
        && r.val == "D" && |r.key| == |e.key|
        && forall i :: 0 <= i < |e.key| ==> r.key[i] == if e.key[i] == 'D' && 'D' !in e.key[..i] then 'L' else e.key[i]
      else r == e
  {
    ReplaceFirstAt(e.key, 'L', 'D');
    ReplaceFirstAt(e.key, 'D', 'L');
    FirstMeans(e.key, 'L');
    FirstMeans(e.key, 'D');
  }

  lemma FirstMeans(s: string, c: char)
    ensures forall i :: 0 <= i < |s| ==> (s[i] == c && c !in s[..i] <==> i == First(s, c))
  {
    forall i | 0 <= i < |s| ensures s[i] == c && c !in s[..i] <==> i == First(s, c) {
      var f := First(s, c);
      if f < i { assert s[..i][f] == c; }
      assert i == f ==> forall j :: 0 <= j < i ==> s[..i][j] != c;
    }
  }

  lemma {:induction false} ReplaceFirstAt(s: string, a: char, b: char)
    ensures ReplaceFirst(s, a, b) == if First(s, a) < |s| then s[First(s, a) := b] else s
  {
    if s != "" && s[0] != a {
      ReplaceFirstAt(s[1..], a, b);
      assert s == [s[0]] + s[1..];
    }
  }

  lemma FirstIn(s: string, c: char)
    ensures c in s <==> First(s, c) < |s|
  {
    var i := First(s, c);
    if i < |s| {
      assert s[i] in s;
    } else {
      assert forall j :: 0 <= j < |s| ==> s[j] != c;
    }
  }

  /** A dynamic forwarding has an 'L', and no 'D' before the first one; any other
      entry has no 'D'. */
  predicate Reloadable(e: Entry) {
    if e.val == "D" then First(e.key, 'L') < First(e.key, 'D') else First(e.key, 'D') == |e.key|
  }

  lemma FirstUpdated(s: string, c: char, i: nat)
    requires i < |s|
    ensures First(s[i := c], c) == if First(s, c) < i then First(s, c) else i
  {
    var t, d := s[i := c], First(s, c);
    var r := if d < i then d else i;
    assert t[r] == c;
    forall k | 0 <= k < r ensures t[k] != c { assert t[k] == s[k]; }
    assert First(t, c) == r;
  }

  /** The stored form of an entry, and what is read back. */
  lemma SaveLoad(e: Entry)
    ensures
      var l, d := First(e.key, 'L'), First(e.key, 'D');
      Load(true, Save(true, e)) ==
      if e.val == "D" && l < |e.key| then (if l < d then e else Entry(e.key[l := 'D'][d := 'L'], "D"))
      else if d < |e.key| then Entry(e.key[d := 'L'], "D")
      else if e.val == "D" then Entry(e.key, "")
      else e
  {
    var l := First(e.key, 'L');
    ReplaceFirstAt(e.key, 'L', 'D');
    var x := Save(true, e);
    ReplaceFirstAt(x.key, 'D', 'L');
    FirstIn(x.key, 'D');
    if e.val == "D" && l < |e.key| {
      FirstUpdated(e.key, 'D', l);
      assert e.key[l := 'D'][l := 'L'] == e.key;
      assert First(e.key, 'D') != l;
    }
  }

  lemma ReloadEntry(e: Entry)
    ensures Load(true, Save(true, e)) == e <==> Reloadable(e)
  {
    hide Load, Save;
    SaveLoad(e);
    var l, d := First(e.key, 'L'), First(e.key, 'D');
    if d < |e.key| { assert e.key[d := 'L'][d] != e.key[d]; }
    if d < l < |e.key| { assert e.key[l := 'D'][d := 'L'][d] != e.key[d]; }
  }

  /** An entry that another one turns into would have come back by itself. */
  lemma TurnedInto(e: Entry, other: Entry)
    requires Load(true, Save(true, other)) == e && other.key != e.key
    ensures Reloadable(e)
  {
    hide Load, Save;
    SaveLoad(other);
    var l, d := First(other.key, 'L'), First(other.key, 'D');
    assert e.key[d] == 'L';
    forall j | 0 <= j <= d ensures e.key[j] != 'D' { }
    assert First(e.key, 'L') <= d;
    assert First(e.key, 'D') > d;
  }

  // ------------------------------------------------------- the main theorems

  ghost predicate AllReloadable(m: map<string, string>) {
    forall k :: k in m ==> Reloadable(Entry(k, m[k]))
  }

  lemma SavedVisible(portfwd: bool, es: seq<Entry>, m: map<string, string>)
    requires Enumerates(es, m) && CStrings(m)
    ensures Visible(SaveAll(portfwd, es), true)
  {
    forall x | x in SaveAll(portfwd, es) ensures CString(x.key) && CString(x.val) {
      var i :| 0 <= i < |es| && SaveAll(portfwd, es)[i] == x;
      assert es[i] in es;
      ReplaceFirstAt(es[i].key, 'L', 'D');
    }
  }

  /** What gppmap makes of what wmap wrote for the map that `es` lists. */
  function Reload(portfwd: bool, es: seq<Entry>, includeValues: bool): map<string, string> {
    Store(map[], portfwd, Parse(Print(SaveAll(portfwd, es), includeValues)))
  }

  lemma ReloadIsPut(portfwd: bool, es: seq<Entry>, m: map<string, string>)
    requires Enumerates(es, m) && CStrings(m)
    ensures Reload(portfwd, es, true) == Put(map[], LoadAll(portfwd, SaveAll(portfwd, es)))
  {
    SavedVisible(portfwd, es, m);
    ParsePrint(SaveAll(portfwd, es), true);
    assert Written(SaveAll(portfwd, es), true) == SaveAll(portfwd, es);
    StoreIsPut(map[], portfwd, SaveAll(portfwd, es));
  }

  /** Every map of C strings comes back, whatever characters it holds. */
  lemma MapRoundTrip(es: seq<Entry>, m: map<string, string>)
    requires Enumerates(es, m) && CStrings(m)
    ensures Reload(false, es, true) == m
  {
    ReloadIsPut(false, es, m);
    assert LoadAll(false, SaveAll(false, es)) == es;
    PutEnumerated(es, m);
  }

  /** Port forwardings come back if and only if each entry does by itself. */
  lemma ForwardingRoundTrip(es: seq<Entry>, m: map<string, string>)
    requires Enumerates(es, m) && CStrings(m)
    ensures Reload(true, es, true) == m <==> AllReloadable(m)
  {
    hide Load, Save, Reloadable, Put;
    ReloadIsPut(true, es, m);
    var ls := LoadAll(true, SaveAll(true, es));
    if AllReloadable(m) {
      forall i | 0 <= i < |es| ensures ls[i] == es[i] {
        assert es[i] in es;
        ReloadEntry(es[i]);
      }
      assert ls == es;
      PutEnumerated(es, m);
    }
    if Put(map[], ls) == m {
      forall k | k in m ensures Reloadable(Entry(k, m[k])) {
        PutFrom(map[], ls, k);
        var i :| 0 <= i < |ls| && ls[i] == Entry(k, m[k]);
        assert es[i] in es;
        ReloadEntry(es[i]);
        if es[i].key != k { TurnedInto(Entry(k, m[k]), es[i]); }
      }
    }
  }

  /** The order in which conf_get_str_strs walks a map puts an empty key first. */
  ghost predicate EmptyKeyFirst(es: seq<Entry>) {
    forall i :: 0 < i < |es| ==> es[i].key != ""
  }

  function Names(m: map<string, string>): map<string, string> { map k | k in m :: "" }

  /** When only names are written, they come back if and only if none of them is
      empty. */
  lemma NamesRoundTrip(es: seq<Entry>, m: map<string, string>)
    requires Enumerates(es, m) && CStrings(m) && EmptyKeyFirst(es)
    ensures Reload(false, es, false) == Names(m) <==> "" !in m
  {
    assert SaveAll(false, es) == es;
    if "" !in m {
      NamesVisible(es, m);
      NamesPut(es, m);
    } else {
      var rest := es[1..];
      FirstIsEmpty(es, m);
      assert Print(es, false) == Print(rest, false);
      ParsePrint(rest, false);
      StoreIsPut(map[], false, Written(rest, false));
      var ls := LoadAll(false, Written(rest, false));
      PutFrom(map[], ls, "");
      forall l | l in ls ensures l.key != "" {
        var i :| 0 <= i < |ls| && ls[i] == l;
      }
      assert "" !in Reload(false, es, false);
      assert "" in Names(m);
    }
  }

  lemma NamesVisible(es: seq<Entry>, m: map<string, string>)
    requires Enumerates(es, m) && CStrings(m) && "" !in m
    ensures Visible(es, false)
  {
  }

  lemma NamesPut(es: seq<Entry>, m: map<string, string>)
    requires Enumerates(es, m) && Visible(es, false)
    ensures Reload(false, es, false) == Names(m)
  {
    assert SaveAll(false, es) == es;
    ParsePrint(es, false);
    var names := Written(es, false);
    StoreIsPut(map[], false, names);
    assert LoadAll(false, names) == names;
    forall i | 0 <= i < |es| ensures names[i] == Entry(es[i].key, "") && es[i].key in m { assert es[i] in es; }
    forall k | k in Names(m) ensures Entry(k, Names(m)[k]) in names {
      assert Entry(k, m[k]) in es;
      var i :| 0 <= i < |es| && es[i] == Entry(k, m[k]);
      assert names[i] == Entry(k, "");
    }
    PutEnumerated(names, Names(m));
  }

  lemma FirstIsEmpty(es: seq<Entry>, m: map<string, string>)
    requires Enumerates(es, m) && CStrings(m) && EmptyKeyFirst(es) && "" in m
    ensures es != [] && es[0].key == "" && Visible(es[1..], false)
    ensures Print(es, false) == Print(es[1..], false)
  {
    assert Entry("", m[""]) in es;
    var i :| 0 <= i < |es| && es[i] == Entry("", m[""]);
    forall e | e in es[1..] ensures e.key != "" && CString(e.key) && CString(e.val) {
      var j :| 0 <= j < |es| - 1 && es[1..][j] == e;
      assert es[j + 1] == e && e in es;
    }
    EscapeEmpty();
    assert "" + "" + PrintEntry(es[0], false) == "";
  }

  // -------------------------------------------- what is written can be read

  /** The parser may be given this string. */
  ghost predicate Readable(s: string) { CString(s) && NoDangling(s) }

  lemma {:induction false} ReadableCat(a: string, b: string)
    requires Readable(a) && Readable(b)
    ensures Readable(a + b)
    decreases |a|
  {
    if a == "" { assert a + b == b; }
    else {
      var n := if a[0] == '\\' then 2 else 1;
      assert (a + b)[n..] == a[n..] + b;
      ReadableCat(a[n..], b);
    }
  }

  lemma {:induction false} EscapeReadable(s: string)
    requires CString(s)
    ensures Readable(Escape(s))
  {
    if s != "" {
      EscapeReadable(s[1..]);
      var e := if Special(s[0]) then ['\\', s[0]] else [s[0]];
      assert e[if Special(s[0]) then 2 else 1..] == "";
      ReadableCat(e, Escape(s[1..]));
    }
  }

  lemma OneReadable(c: char)
    requires c != '\\' && c != NUL
    ensures Readable([c]) && Readable("")
  {
    assert [c][1..] == "";
  }

  lemma EntryReadable(e: Entry, includeValues: bool)
    requires CString(e.key) && CString(e.val)
    ensures Readable(PrintEntry(e, includeValues))
  {
    EscapeReadable(e.key);
    EscapeReadable(e.val);
    OneReadable('=');
    ReadableCat("=", Escape(e.val));
    ReadableCat(Escape(e.key), if includeValues then "=" + Escape(e.val) else "");
  }

  lemma {:induction false} PrintOnReadable(sb: string, es: seq<Entry>, includeValues: bool)
    requires Readable(sb) && forall e :: e in es ==> CString(e.key) && CString(e.val)
    ensures Readable(PrintOn(sb, es, includeValues))
    decreases |es|
  {
    hide PrintEntry, NoDangling;
    if es != [] {
      EntryReadable(es[0], includeValues);
      OneReadable(',');
      ReadableCat(sb, if sb == "" then "" else ",");
      ReadableCat(sb + (if sb == "" then "" else ","), PrintEntry(es[0], includeValues));
      PrintOnReadable(sb + (if sb == "" then "" else ",") + PrintEntry(es[0], includeValues), es[1..], includeValues);
    }
  }

  /** Whatever wmap writes meets the demand of gppmap. */
  lemma PrintReadable(portfwd: bool, es: seq<Entry>, m: map<string, string>, includeValues: bool)
    requires Enumerates(es, m) && CStrings(m)
    ensures Readable(Print(SaveAll(portfwd, es), includeValues))
  {
    SavedVisible(portfwd, es, m);
    OneReadable('a');
    PrintOnReadable("", SaveAll(portfwd, es), includeValues);
  }
}
