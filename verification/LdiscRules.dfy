/** What the line discipline of ldisc.c means: the run-length list of input
    types as a value, and the event that each input byte stands for. */
module LdiscRules {
  import opened Bytes

  datatype InputType = NORMAL | DEDICATED | NONINTERACTIVE

  datatype Tagged = Tagged(c: Byte, kind: InputType)

  // ---------------------------------------------------- the list of chunks

  datatype Chunk = Chunk(kind: InputType, size: nat)

  /** The type of every queued byte. */
  function Expand(cs: seq<Chunk>): seq<InputType> {
    if cs == [] then [] else seq(cs[0].size, _ => cs[0].kind) + Expand(cs[1..])
  }

  predicate Canonical(cs: seq<Chunk>) {
    && (forall i :: 0 <= i < |cs| ==> cs[i].size > 0)
    && (forall i :: 0 <= i < |cs| - 1 ==> cs[i].kind != cs[i + 1].kind)
  }

  /** As canonical, but that the last chunk may be empty. */
  predicate Sound(cs: seq<Chunk>) {
    forall i :: 0 <= i < |cs| - 1 ==> cs[i].size > 0 && cs[i].kind != cs[i + 1].kind
  }

  predicate EmptyTail(cs: seq<Chunk>) { cs != [] && cs[|cs| - 1].size == 0 }

  lemma CanonicalIsSound(cs: seq<Chunk>)
    ensures Canonical(cs) <==> Sound(cs) && !EmptyTail(cs)
  {
    if Sound(cs) && !EmptyTail(cs) {
      forall i | 0 <= i < |cs| ensures cs[i].size > 0 { }
    }
  }

  /** The run-length encoding of a list of types. */
  function Rle(ts: seq<InputType>): seq<Chunk> {
    if ts == [] then []
    else
      var rest := Rle(ts[1..]);
      if rest != [] && rest[0].kind == ts[0] then [Chunk(ts[0], rest[0].size + 1)] + rest[1..]
      else [Chunk(ts[0], 1)] + rest
  }

  /** A canonical list is the run-length encoding of what it stands for: the
      queue's list is never anything else. */
  lemma {:induction false} CanonicalIsRle(cs: seq<Chunk>)
    requires Canonical(cs)
    ensures Rle(Expand(cs)) == cs
    decreases |cs|, if cs == [] then 0 else cs[0].size
  {
    if cs != [] {
      var k, n := cs[0].kind, cs[0].size;
      var ts := Expand(cs);
      assert ts[0] == k;
      if n == 1 {
        assert ts[1..] == Expand(cs[1..]);
        CanonicalIsRle(cs[1..]);
      } else {
        var less := [Chunk(k, n - 1)] + cs[1..];
        assert less[1..] == cs[1..];
        assert ts[1..] == Expand(less);
        CanonicalIsRle(less);
      }
    }
  }

  /** ldisc_send: into the last chunk if it has the right type, else into a new
      one. */
  function Append(cs: seq<Chunk>, kind: InputType, len: nat): seq<Chunk> {
    if cs != [] && cs[|cs| - 1].kind == kind
    then cs[..|cs| - 1] + [Chunk(kind, cs[|cs| - 1].size + len)]
    else cs + [Chunk(kind, len)]
  }

  lemma ExpandCat(a: seq<Chunk>, b: seq<Chunk>)
    ensures Expand(a + b) == Expand(a) + Expand(b)
  {
    if a == [] { assert a + b == b; }
    else { assert (a + b)[1..] == a[1..] + b; ExpandCat(a[1..], b); }
  }

  lemma ExpandOne(c: Chunk)
    ensures Expand([c]) == seq(c.size, _ => c.kind)
  {
    assert [c][1..] == [];
    assert Expand([]) == [];
  }

  lemma AppendExpands(cs: seq<Chunk>, kind: InputType, len: nat)
    ensures Expand(Append(cs, kind, len)) == Expand(cs) + seq(len, _ => kind)
  {
    ExpandOne(Chunk(kind, len));
    if cs != [] && cs[|cs| - 1].kind == kind {
      var front, last := cs[..|cs| - 1], cs[|cs| - 1];
      assert cs == front + [last];
      ExpandCat(front, [last]);
      ExpandOne(last);
      ExpandCat(front, [Chunk(kind, last.size + len)]);
      ExpandOne(Chunk(kind, last.size + len));
    } else {
      ExpandCat(cs, [Chunk(kind, len)]);
    }
  }

  /** Appending keeps the list canonical unless nothing is appended to a list
      that does not end in that type: the one way in is an empty special
      string. */
  lemma AppendCanonical(cs: seq<Chunk>, kind: InputType, len: nat)
    requires Canonical(cs)
    ensures Canonical(Append(cs, kind, len)) <==> len > 0 || (cs != [] && cs[|cs| - 1].kind == kind)
  {
    var cs' := Append(cs, kind, len);
    if cs != [] && cs[|cs| - 1].kind == kind {
      assert forall i :: 0 <= i < |cs| - 1 ==> cs'[i] == cs[i];
    } else {
      assert cs'[|cs|] == Chunk(kind, len);
    }
  }

  function Total(cs: seq<Chunk>): nat { |Expand(cs)| }

  /** ldisc_input_queue_consume on the list. */
  function Consume(cs: seq<Chunk>, size: nat): seq<Chunk> {
    if size == 0 || cs == [] then cs
    else if size < cs[0].size then [Chunk(cs[0].kind, cs[0].size - size)] + cs[1..]
    else Consume(cs[1..], size - cs[0].size)
  }

  lemma {:induction false} ConsumeExpands(cs: seq<Chunk>, size: nat)
    requires size <= Total(cs)
    ensures Expand(Consume(cs, size)) == Expand(cs)[size..]
  {
    if size != 0 && cs != [] {
      var head := seq(cs[0].size, _ => cs[0].kind);
      if size < cs[0].size {
        var cs' := Consume(cs, size);
        assert cs'[1..] == cs[1..];
        assert Expand(cs') == seq(cs[0].size - size, _ => cs[0].kind) + Expand(cs[1..]);
      } else {
        ConsumeExpands(cs[1..], size - cs[0].size);
        assert Expand(cs)[size..] == Expand(cs[1..])[size - cs[0].size..];
      }
    }
  }

  lemma {:induction false} ConsumeCanonical(cs: seq<Chunk>, size: nat)
    requires Canonical(cs)
    ensures Canonical(Consume(cs, size))
  {
    if size != 0 && cs != [] {
      assert Canonical(cs[1..]);
      if size >= cs[0].size { ConsumeCanonical(cs[1..], size - cs[0].size); }
    }
  }

  lemma {:induction false} ConsumeSound(cs: seq<Chunk>, size: nat)
    requires size <= Total(cs)
    ensures Sound(cs) ==> Sound(Consume(cs, size))
    ensures EmptyTail(cs) ==> EmptyTail(Consume(cs, size))
    decreases |cs|
  {
    if size != 0 && cs != [] {
      var rest := cs[1..];
      assert Expand(cs) == seq(cs[0].size, _ => cs[0].kind) + Expand(rest);
      if size >= cs[0].size {
        assert Sound(cs) ==> Sound(rest);
        if |cs| == 1 { assert Expand(rest) == []; }
        assert EmptyTail(cs) ==> rest != [] && rest[|rest| - 1] == cs[|cs| - 1];
        ConsumeSound(rest, size - cs[0].size);
      }
    }
  }

  /** With an empty chunk at the end the list stays sound only if what is
      appended has its type. */
  lemma AppendSound(cs: seq<Chunk>, kind: InputType, len: nat)
    requires Sound(cs)
    ensures Sound(Append(cs, kind, len)) <==> !EmptyTail(cs) || cs[|cs| - 1].kind == kind
    ensures EmptyTail(Append(cs, kind, len)) <==> len == 0 && (cs == [] || cs[|cs| - 1].kind != kind || cs[|cs| - 1].size == 0)
  {
    var cs' := Append(cs, kind, len);
    if cs != [] && cs[|cs| - 1].kind != kind {
      assert cs'[|cs| - 1] == cs[|cs| - 1] && cs'[|cs|] == Chunk(kind, len);
    }
  }

  /** An empty special string, then data of another type: an empty chunk is at
      the head of a queue that is not empty. */
  lemma EmptySpecialThenData(kind: InputType, len: nat)
    requires kind != DEDICATED && len > 0
    ensures
      var cs := Append(Append([], DEDICATED, 0), kind, len);
      cs[0].size == 0 && Total(cs) == len && !Sound(cs)
  {
    AppendExpands([], DEDICATED, 0);
    AppendExpands([Chunk(DEDICATED, 0)], kind, len);
    assert Expand([]) == [];
  }

  // --------------------------------------------------- what a byte stands for

  /** What one input byte causes, whatever its way through the code. */
  datatype Event =
    | Userpass(c: Byte, dedicated: bool)
    | LineInput(c: Byte, dedicated: bool)
    | Send(b: Byte)
    | Special(code: SpecialCode)

  datatype SpecialCode = SS_EOL | SS_EC | SS_IP | SS_SUSP

  datatype Options = Options(editing: bool, echoing: bool, telnet: bool, telnetNewline: bool, telnetKeyboard: bool)

  const CTRL_C: Byte := 3
  const CTRL_H: Byte := 8
  const CTRL_M: Byte := 13
  const CTRL_Z: Byte := 26
  const DEL: Byte := 127

  /** is_dedicated_byte. */
  predicate IsDedicated(c: Byte, kind: InputType) {
    match kind
    case DEDICATED => true
    case NORMAL => false
    case NONINTERACTIVE => c == CTRL_M
  }

  /** The telnet meaning of a dedicated key. */
  function TelnetKey(o: Options, c: Byte): Event {
    if c == CTRL_M then (if o.telnetNewline then Special(SS_EOL) else Send(CTRL_M))
    else if !o.telnetKeyboard then Send(c)
    else if c == DEL || c == CTRL_H then Special(SS_EC)
    else if c == CTRL_C then Special(SS_IP)
    else if c == CTRL_Z then Special(SS_SUSP)
    else Send(c)
  }

  /** `toUser` says that a userpass editor was there for this byte. */
  function Translate(o: Options, x: Tagged, toUser: bool): Event {
    if toUser then Userpass(x.c, IsDedicated(x.c, x.kind))
    else if o.editing then LineInput(x.c, IsDedicated(x.c, x.kind))
    else if x.kind == DEDICATED && o.telnet then TelnetKey(o, x.c)
    else Send(x.c)
  }

  /** What a byte does that no userpass editor takes, by the call it came with: a
      special string, typed, or pasted. */
  ghost function Keyed(o: Options, c: Byte, special: bool, interactive: bool): Event {
    if o.editing then LineInput(c, special || (!interactive && c == 13))
    else if !special || !o.telnet then Send(c)
    else
      match c
      case 13 => if o.telnetNewline then Special(SS_EOL) else Send(13)
      case 127 => if o.telnetKeyboard then Special(SS_EC) else Send(127)
      case 8 => if o.telnetKeyboard then Special(SS_EC) else Send(8)
      case 3 => if o.telnetKeyboard then Special(SS_IP) else Send(3)
      case 26 => if o.telnetKeyboard then Special(SS_SUSP) else Send(26)
      case _ => Send(c)
  }

  /** The types keep what the calls said of their bytes. */
  lemma KeyedOut(o: Options, xs: seq<Tagged>, route: seq<bool>, k: nat, special: bool, interactive: bool)
    requires |route| == |xs| && k < |xs|
    requires xs[k].kind == if special then DEDICATED else if interactive then NORMAL else NONINTERACTIVE
    ensures Trace(o, xs, route)[k] ==
            if route[k] then Userpass(xs[k].c, special || (!interactive && xs[k].c == 13))
            else Keyed(o, xs[k].c, special, interactive)
  {
  }

  function Trace(o: Options, xs: seq<Tagged>, route: seq<bool>): (t: seq<Event>)
    requires |route| == |xs|
    ensures |t| == |xs|
  {
    seq(|xs|, i requires 0 <= i < |xs| => Translate(o, xs[i], route[i]))
  }

  /** The bytes that are echoed on the terminal here: those that the line editor
      does not see to. */
  function Echo(o: Options, xs: seq<Tagged>, route: seq<bool>): seq<Byte>
    requires |route| == |xs|
  {
    if xs == [] || o.editing || !o.echoing then []
    else
      var n := |xs| - 1;
      Echo(o, xs[..n], route[..n]) + (if route[n] then [] else [xs[n].c])
  }

  lemma TraceCat(o: Options, a: seq<Tagged>, b: seq<Tagged>, ra: seq<bool>, rb: seq<bool>)
    requires |ra| == |a| && |rb| == |b|
    ensures Trace(o, a + b, ra + rb) == Trace(o, a, ra) + Trace(o, b, rb)
  {
  }

  lemma {:induction false} EchoCat(o: Options, a: seq<Tagged>, b: seq<Tagged>, ra: seq<bool>, rb: seq<bool>)
    requires |ra| == |a| && |rb| == |b|
    ensures Echo(o, a + b, ra + rb) == Echo(o, a, ra) + Echo(o, b, rb)
  {
    if b == [] {
      assert a + b == a && ra + rb == ra;
    } else {
      var n := |b| - 1;
      EchoCat(o, a, b[..n], ra, rb[..n]);
      assert (a + b)[..|a + b| - 1] == a + b[..n];
      assert (ra + rb)[..|a + b| - 1] == ra + rb[..n];
      assert (a + b)[|a + b| - 1] == b[n] && (ra + rb)[|a + b| - 1] == rb[n];
    }
  }

  function BytesOf(xs: seq<Tagged>): seq<Byte> { seq(|xs|, i requires 0 <= i < |xs| => xs[i].c) }

  /** A stretch of bytes that all take the same way. */
  function Uniform(n: nat, b: bool): seq<bool> { seq(n, _ => b) }

  lemma {:induction false} EchoUniform(o: Options, xs: seq<Tagged>, toUser: bool)
    ensures Echo(o, xs, Uniform(|xs|, toUser)) == if toUser || o.editing || !o.echoing then [] else BytesOf(xs)
  {
    if xs != [] {
      var n := |xs| - 1;
      EchoUniform(o, xs[..n], toUser);
      assert Uniform(|xs|, toUser)[..n] == Uniform(n, toUser);
      assert BytesOf(xs) == BytesOf(xs[..n]) + [xs[n].c];
    }
  }

  /** The queued bytes with their types. */
  function Tag(bytes: seq<Byte>, kinds: seq<InputType>): (xs: seq<Tagged>)
    requires |bytes| == |kinds|
    ensures |xs| == |bytes|
  {
    seq(|bytes|, i requires 0 <= i < |bytes| => Tagged(bytes[i], kinds[i]))
  }

  lemma TagCat(a: seq<Byte>, b: seq<Byte>, ka: seq<InputType>, kb: seq<InputType>)
    requires |a| == |ka| && |b| == |kb|
    ensures Tag(a + b, ka + kb) == Tag(a, ka) + Tag(b, kb)
  {
  }

  lemma TagDrop(a: seq<Byte>, ka: seq<InputType>, n: nat)
    requires |a| == |ka| && n <= |a|
    ensures Tag(a, ka)[n..] == Tag(a[n..], ka[n..]) && Tag(a, ka)[..n] == Tag(a[..n], ka[..n])
  {
  }

  /** Bytes of one chunk. */
  function TagAll(bytes: seq<Byte>, kind: InputType): (xs: seq<Tagged>)
    ensures |xs| == |bytes|
  {
    seq(|bytes|, i requires 0 <= i < |bytes| => Tagged(bytes[i], kind))
  }

  /** The first bytes of the queue have the type of the first chunk. */
  lemma HeadBatch(bytes: seq<Byte>, cs: seq<Chunk>, len: nat)
    requires |bytes| == Total(cs) && cs != [] && len <= cs[0].size
    ensures len <= |bytes| && Tag(bytes, Expand(cs))[..len] == TagAll(bytes[..len], cs[0].kind)
  {
    assert forall i :: 0 <= i < len ==> Expand(cs)[i] == cs[0].kind;
  }

  lemma TraceOne(o: Options, x: Tagged, toUser: bool)
    ensures Trace(o, [x], [toUser]) == [Translate(o, x, toUser)]
  {
  }

  /** The trace of a batch grows by one byte. */
  lemma TraceGrows(o: Options, xs: seq<Tagged>, n: nat, toUser: bool)
    requires n < |xs|
    ensures Trace(o, xs[..n + 1], Uniform(n + 1, toUser)) == Trace(o, xs[..n], Uniform(n, toUser)) + [Translate(o, xs[n], toUser)]
  {
    assert xs[..n + 1] == xs[..n] + [xs[n]];
    assert Uniform(n + 1, toUser) == Uniform(n, toUser) + [toUser];
    TraceCat(o, xs[..n], [xs[n]], Uniform(n, toUser), [toUser]);
    TraceOne(o, xs[n], toUser);
  }

  /** The route of a batch of `m` bytes of which the first `fed` went to a
      userpass editor. */
  function Route(fed: nat, m: nat): (r: seq<bool>)
    requires fed <= m
    ensures |r| == m
  {
    Uniform(fed, true) + Uniform(m - fed, false)
  }

  /** Without a userpass editor at the start there is none later, and none of the
      bytes since has gone to one. */
  ghost predicate Straight(u: bool, r: seq<bool>, u': bool, r': seq<bool>) {
    r <= r' && (!u ==> !u' && forall k :: |r| <= k < |r'| ==> !r'[k])
  }

  lemma StraightOn(u: bool, r: seq<bool>, u': bool, r': seq<bool>, u'': bool, r'': seq<bool>)
    ensures Straight(u, r, u', r') && Straight(u', r', u'', r'') ==> Straight(u, r, u'', r'')
    ensures u == u' && r == r' ==> Straight(u, r, u', r')
  {
  }

  lemma StraightRoute(u: bool, r: seq<bool>, u': bool, fed: nat, m: nat)
    requires fed <= m && (!u ==> fed == 0 && !u')
    ensures Straight(u, r, u', r + Route(fed, m))
  {
  }

  /** What one call echoes that all goes past the userpass editors. */
  lemma EchoOut(o: Options, xs: seq<Tagged>, r: seq<bool>, data: seq<Byte>, kind: InputType, r': seq<bool>)
    requires |r| == |xs| && |r'| == |xs| + |data| && Straight(false, r, false, r')
    ensures Echo(o, xs + TagAll(data, kind), r') == Echo(o, xs, r) + if o.editing || !o.echoing then [] else data
  {
    assert r' == r + Uniform(|data|, false);
    EchoCat(o, xs, TagAll(data, kind), r, Uniform(|data|, false));
    EchoUniform(o, TagAll(data, kind), false);
    assert BytesOf(TagAll(data, kind)) == data;
  }

  lemma TraceRoute(o: Options, xs: seq<Tagged>, fed: nat)
    requires fed <= |xs|
    ensures Trace(o, xs, Route(fed, |xs|)) ==
            Trace(o, xs[..fed], Uniform(fed, true)) + Trace(o, xs[fed..], Uniform(|xs| - fed, false))
    ensures Echo(o, xs, Route(fed, |xs|)) == if o.editing || !o.echoing then [] else BytesOf(xs[fed..])
  {
    assert xs == xs[..fed] + xs[fed..];
    TraceCat(o, xs[..fed], xs[fed..], Uniform(fed, true), Uniform(|xs| - fed, false));
    EchoCat(o, xs[..fed], xs[fed..], Uniform(fed, true), Uniform(|xs| - fed, false));
    EchoUniform(o, xs[..fed], true);
    EchoUniform(o, xs[fed..], false);
  }

  /** Consuming exactly what was processed keeps the account straight. */
  lemma AccountGrows(o: Options, submitted: seq<Tagged>, route: seq<bool>, m: nat, r: seq<bool>)
    requires |route| + m <= |submitted| && |r| == m
    ensures
      var xs := submitted[|route|..][..m];
      && submitted[..|route| + m] == submitted[..|route|] + xs
      && submitted[|route|..][m..] == submitted[|route| + m..]
      && Trace(o, submitted[..|route| + m], route + r) == Trace(o, submitted[..|route|], route) + Trace(o, xs, r)
      && Echo(o, submitted[..|route| + m], route + r) == Echo(o, submitted[..|route|], route) + Echo(o, xs, r)
  {
    var xs := submitted[|route|..][..m];
    assert submitted[..|route| + m] == submitted[..|route|] + xs;
    TraceCat(o, submitted[..|route|], xs, route, r);
    EchoCat(o, submitted[..|route|], xs, route, r);
  }
}
