/** The line discipline's input queue as ldisc.c keeps it: a byte queue beside a
    linked list of typed chunks, drained under back-pressure. */
module Ldisc {
  import opened Bytes
  import opened LdiscRules

  /** struct input_chunk. */
  class InputChunk {
    var next: InputChunk?
    var kind: InputType
    var size: nat

    constructor (kind: InputType)
      ensures this.kind == kind && size == 0 && next == null
    {
      this.kind := kind;
      size, next := 0, null;
    }
  }

  ghost function ChunksOf(ns: seq<InputChunk>): (cs: seq<Chunk>)
    reads ns
    ensures |cs| == |ns|
  {
    seq(|ns|, i requires 0 <= i < |ns| reads ns => Chunk(ns[i].kind, ns[i].size))
  }

  function NextChunk(ns: seq<InputChunk>, i: nat): InputChunk? {
    if i + 1 < |ns| then ns[i + 1] else null
  }

  /** The nodes `ns` in this order make up the list from `head` to `tail`. */
  ghost predicate ChunkList(head: InputChunk?, tail: InputChunk?, ns: seq<InputChunk>)
    reads ns
  {
    && (forall i, j :: 0 <= i < j < |ns| ==> ns[i] != ns[j])
    && (forall i :: 0 <= i < |ns| ==> ns[i].next == NextChunk(ns, i))
    && head == (if ns == [] then null else ns[0])
    && tail == (if ns == [] then null else ns[|ns| - 1])
  }

  class Ldisc {
    const o: Options

    /** What the surroundings answer: backend_sendok in each pass, told whether
        the pass has fed a userpass editor; how many bytes bufchain_prefix shows
        in each pass; and whether a userpass editor is still there after each
        byte fed to it. */
    const sendok: (nat, bool) -> bool
    const granule: nat -> nat
    const keeps: nat -> bool
    var passes: nat
    var feeds: nat
    /** The last answer of backend_sendok was no. */
    var held: bool

    var inputQueue: seq<Byte>
    var inchunkHead: InputChunk?
    var inchunkTail: InputChunk?
    var userpass: bool
    ghost var spine: seq<InputChunk>
    ghost var nodes: set<InputChunk>

    /** What came out: one event a byte, and the bytes echoed here. */
    var out: seq<Event>
    var echoed: seq<Byte>

    /** Everything ever submitted, and for each byte already consumed whether it
        went to a userpass editor. */
    ghost var submitted: seq<Tagged>
    ghost var route: seq<bool>

    constructor (o: Options, sendok: (nat, bool) -> bool, granule: nat -> nat, keeps: nat -> bool)
      ensures Valid() && submitted == [] && out == [] && inputQueue == [] && nodes == {} && Chunks() == []
      ensures passes == 0 && feeds == 0 && !userpass && route == []
      ensures this.o == o && this.sendok == sendok && this.granule == granule && this.keeps == keeps
    {
      this.o, this.sendok, this.granule, this.keeps := o, sendok, granule, keeps;
      passes, feeds, userpass, held := 0, 0, false, false;
      inputQueue, inchunkHead, inchunkTail, spine, nodes := [], null, null, [], {};
      out, echoed, submitted, route := [], [], [], [];
    }

    ghost function Chunks(): (cs: seq<Chunk>)
      reads this, spine
    {
      ChunksOf(spine)
    }

    /** The chunk list has a type for every queued byte. */
    ghost predicate Tagging()
      reads this, spine
    {
      List() && Total(Chunks()) == |inputQueue|
    }

    ghost predicate List()
      reads this, spine
    {
      ChunkList(inchunkHead, inchunkTail, spine) && forall i :: 0 <= i < |spine| ==> spine[i] in nodes
    }

    ghost function Queued(): seq<Tagged>
      reads this, spine
      requires Tagging()
    {
      Tag(inputQueue, Expand(Chunks()))
    }

    /** What has come out, followed by what is still queued, is everything that
        was submitted, in order and with its type. */
    ghost predicate Conserved()
      reads this, spine
      requires Tagging()
    {
      && |route| <= |submitted|
      && Queued() == submitted[|route|..]
      && out == Trace(o, submitted[..|route|], route)
      && echoed == Echo(o, submitted[..|route|], route)
    }

    ghost predicate Valid()
      reads this, spine
    {
      Tagging() && Conserved()
    }

    /** Takes `n` off the head chunk, and the chunk off the list if it is used up. */
    method TrimHead(n: nat)
      requires List() && spine != [] && n <= spine[0].size
      modifies this`inchunkHead, this`inchunkTail, this`spine, nodes
      ensures List()
      ensures
        var cs := old(Chunks());
        Chunks() == if n == cs[0].size then cs[1..] else [Chunk(cs[0].kind, cs[0].size - n)] + cs[1..]
    {
      ghost var cs := Chunks();
      inchunkHead.size := inchunkHead.size - n;
      if inchunkHead.size == 0 {
        ChunksTail(inchunkHead, inchunkTail, spine);
        inchunkHead := inchunkHead.next;
        if inchunkHead == null { inchunkTail := null; }
        spine := spine[1..];
        assert Chunks() == cs[1..];
      } else {
        assert Chunks() == [Chunk(cs[0].kind, cs[0].size - n)] + cs[1..];
      }
    }

    /** The loop of ldisc_input_queue_consume over the list. */
    method ConsumeChunks(size0: nat)
      requires List() && size0 <= Total(Chunks())
      modifies this`inchunkHead, this`inchunkTail, this`spine, nodes
      ensures List() && Chunks() == LdiscRules.Consume(old(Chunks()), size0)
    {
      hide LdiscRules.Consume, Total, ChunkList, ChunksOf;
      var size: nat := size0;
      while size > 0
        invariant List() && size <= Total(Chunks())
        invariant LdiscRules.Consume(Chunks(), size) == LdiscRules.Consume(old(Chunks()), size0)
        decreases size, |Chunks()|
      {
        HeadChunk(inchunkHead, inchunkTail, spine, size);
        ConsumeStep(Chunks(), size);
        var thisSize := if size < inchunkHead.size then size else inchunkHead.size;
        TrimHead(thisSize);
        size := size - thisSize;
      }
      ConsumeNone(Chunks());
    }

    /** ldisc_input_queue_consume. */
    method Consume(size: nat)
      requires Tagging() && size <= |inputQueue|
      modifies this`inputQueue, this`inchunkHead, this`inchunkTail, this`spine, nodes
      ensures Tagging() && inputQueue == old(inputQueue)[size..]
      ensures Queued() == old(Queued())[size..] && Chunks() == LdiscRules.Consume(old(Chunks()), size)
    {
      ConsumeExpands(Chunks(), size);
      TagDrop(inputQueue, Expand(Chunks()), size);
      inputQueue := inputQueue[size..];
      ConsumeChunks(size);
    }

    /** How many of `len` bytes a userpass editor takes, from feed `k` on. */
    function FedCount(len: nat, k: nat): (n: nat)
      ensures n <= len && (n > 0 <==> len > 0)
    {
      if len == 0 then 0 else if keeps(k) then 1 + FedCount(len - 1, k + 1) else 1
    }

    /** The first inner loop: bytes go to the userpass editor while there is one. */
    method FeedUserpass(data: seq<Byte>, kind: InputType) returns (pos: nat)
      modifies this`out, this`feeds, this`userpass
      ensures pos == if old(userpass) then FedCount(|data|, old(feeds)) else 0
      ensures pos < |data| ==> !userpass
      ensures pos == 0 ==> userpass == old(userpass) && feeds == old(feeds)
      ensures out == old(out) + Trace(o, TagAll(data, kind)[..pos], Uniform(pos, true))
    {
      pos := 0;
      ghost var xs := TagAll(data, kind);
      while pos < |data| && userpass
        invariant pos <= |data| && (pos == 0 ==> userpass == old(userpass) && feeds == old(feeds))
        invariant (if old(userpass) then FedCount(|data|, old(feeds)) else 0) ==
                  pos + if userpass then FedCount(|data| - pos, feeds) else 0
        invariant out == old(out) + Trace(o, xs[..pos], Uniform(pos, true))
      {
        var c := data[pos];
        TraceGrows(o, xs, pos, true);
        pos := pos + 1;
        out := out + [Userpass(c, IsDedicated(c, kind))];
        userpass := keeps(feeds);
        feeds := feeds + 1;
      }
    }

    /** The editing branch. */
    method Edit(data: seq<Byte>, kind: InputType)
      requires o.editing
      modifies this`out
      ensures out == old(out) + Trace(o, TagAll(data, kind), Uniform(|data|, false))
    {
      var i := 0;
      ghost var xs := TagAll(data, kind);
      while i < |data|
        invariant 0 <= i <= |data|
        invariant out == old(out) + Trace(o, xs[..i], Uniform(i, false))
      {
        TraceGrows(o, xs, i, false);
        out := out + [LineInput(data[i], IsDedicated(data[i], kind))];
        i := i + 1;
      }
      assert xs[..i] == xs;
    }

    /** The switch over dedicated telnet keys; each case falls into the next one
        unless it breaks. */
    method SendTelnetKey(c: Byte)
      modifies this`out
      ensures out == old(out) + [TelnetKey(o, c)]
    {
      var entry := if c == DEL || c == CTRL_H then 0 else if c == CTRL_C then 1 else if c == CTRL_Z then 2 else 3;
      if c == CTRL_M {
        if o.telnetNewline { out := out + [Special(SS_EOL)]; } else { out := out + [Event.Send(CTRL_M)]; }
      } else if entry <= 0 && o.telnetKeyboard {
        out := out + [Special(SS_EC)];
      } else if entry <= 1 && o.telnetKeyboard {
        out := out + [Special(SS_IP)];
      } else if entry <= 2 && o.telnetKeyboard {
        out := out + [Special(SS_SUSP)];
      } else {
        out := out + [Event.Send(c)];
      }
    }

    /** The branch for dedicated input under telnet. */
    method SendTelnet(data: seq<Byte>)
      requires !o.editing && o.telnet
      modifies this`out
      ensures out == old(out) + Trace(o, TagAll(data, DEDICATED), Uniform(|data|, false))
    {
      var i := 0;
      ghost var xs := TagAll(data, DEDICATED);
      while i < |data|
        invariant 0 <= i <= |data|
        invariant out == old(out) + Trace(o, xs[..i], Uniform(i, false))
      {
        TraceGrows(o, xs, i, false);
        SendTelnetKey(data[i]);
        i := i + 1;
      }
      assert xs[..i] == xs;
    }

    /** backend_send of a whole stretch. */
    method SendPlain(data: seq<Byte>, kind: InputType)
      requires !o.editing && !(kind == DEDICATED && o.telnet)
      modifies this`out
      ensures out == old(out) + Trace(o, TagAll(data, kind), Uniform(|data|, false))
    {
      out := out + seq(|data|, i requires 0 <= i < |data| => Event.Send(data[i]));
    }

    /** How long the stretch of one pass is: what bufchain_prefix shows, cut to
        the first chunk. */
    function Stretch(): (n: nat)
      requires inchunkHead != null
      reads this, inchunkHead
    {
      var g := granule(passes);
      var shown := if g < 1 then 1 else if g > |inputQueue| then |inputQueue| else g;
      if shown < inchunkHead.size then shown else inchunkHead.size
    }

    /** The stretch that one pass looks at. */
    method Shown() returns (data: seq<Byte>, kind: InputType)
      requires Tagging() && inputQueue != []
      ensures inchunkHead != null && |data| == Stretch() <= |inputQueue| && Queued()[..|data|] == TagAll(data, kind)
      ensures kind == inchunkHead.kind && Chunks() != [] && inchunkHead.size == Chunks()[0].size
    {
      HeadChunk(inchunkHead, inchunkTail, spine, |inputQueue|);
      var g := granule(passes);
      var shown := if g < 1 then 1 else if g > |inputQueue| then |inputQueue| else g;
      var len := if shown < inchunkHead.size then shown else inchunkHead.size;
      HeadBatch(inputQueue, Chunks(), len);
      data, kind := inputQueue[..len], inchunkHead.kind;
    }

    /** Local editing, or sending, of what is left of the stretch after `pos`
        bytes; the result is how much the code then takes off the queue. */
    method Process(data: seq<Byte>, kind: InputType, pos: nat) returns (c: nat)
      requires pos <= |data|
      modifies this`out, this`echoed
      ensures out == old(out) + Trace(o, TagAll(data, kind)[pos..], Uniform(|data| - pos, false))
      ensures echoed == old(echoed) + if o.editing || !o.echoing then [] else data[pos..]
      ensures c == if o.editing || (kind == DEDICATED && o.telnet) then |data| else |data| - pos
    {
      hide Trace, Uniform;
      assert TagAll(data, kind)[pos..] == TagAll(data[pos..], kind);
      if o.editing {
        Edit(data[pos..], kind);
        c := |data|;
      } else {
        if o.echoing { echoed := echoed + data[pos..]; }
        if kind == DEDICATED && o.telnet {
          SendTelnet(data[pos..]);
          c := |data|;
        } else {
          SendPlain(data[pos..], kind);
          c := |data| - pos;
        }
      }
    }

    /** The userpass editor, the question to the backend, and the rest. Of the
        stretch, `m` bytes are processed, the first `fed` of them by the userpass
        editor; the code then takes `c` off the queue. */
    method Handle(data: seq<Byte>, kind: InputType) returns (stop: bool, c: nat, ghost fed: nat, ghost m: nat)
      modifies this`out, this`echoed, this`passes, this`feeds, this`userpass, this`held
      ensures fed <= m <= |data| && c <= m && fed == if old(userpass) then FedCount(|data|, old(feeds)) else 0
      ensures fed == 0 ==> userpass == old(userpass) && feeds == old(feeds)
      ensures stop <==> !sendok(old(passes), fed > 0)
      ensures held == stop && passes == old(passes) + 1
      ensures m == if stop then fed else |data|
      ensures out == old(out) + Trace(o, TagAll(data, kind)[..m], Route(fed, m))
      ensures echoed == old(echoed) + Echo(o, TagAll(data, kind)[..m], Route(fed, m))
      ensures c == if stop || o.editing || (kind == DEDICATED && o.telnet) then m else m - fed
    {
      hide Trace, Uniform, Echo, Route;
      ghost var xs := TagAll(data, kind);
      var pos := FeedUserpass(data, kind);
      fed := pos;
      stop := !sendok(passes, pos > 0);
      passes, held := passes + 1, stop;
      if stop {
        m, c := fed, pos;
        StoppedBatch(o, xs[..fed]);
      } else {
        m := |data|;
        assert xs[..m] == xs;
        ProcessedBatch(o, data, kind, fed);
        c := Process(data, kind, pos);
      }
    }

    /** One pass of the outer loop. It processes `m` bytes, of which the first
        `fed` go to the userpass editor, and it consumes `c`. */
    method Pass() returns (stop: bool, ghost fed: nat, ghost m: nat, ghost c: nat)
      requires Tagging() && inputQueue != []
      modifies this`out, this`echoed, this`passes, this`feeds, this`userpass, this`held
      modifies this`inputQueue, this`inchunkHead, this`inchunkTail, this`spine, nodes
      ensures Tagging() && old(inchunkHead) != null && fed <= m <= |old(inputQueue)| && c <= m
      ensures fed == if old(userpass) then FedCount(old(Stretch()), old(feeds)) else 0
      ensures m == if stop then fed else old(Stretch())
      ensures stop <==> !sendok(old(passes), fed > 0)
      ensures held == stop && passes == old(passes) + 1
      ensures !stop ==> (m > 0 <==> old(Chunks())[0].size > 0)
      ensures Queued() == old(Queued())[c..] && inputQueue == old(inputQueue)[c..] && Chunks() == LdiscRules.Consume(old(Chunks()), c)
      ensures out == old(out) + Trace(o, old(Queued())[..m], Route(fed, m))
      ensures echoed == old(echoed) + Echo(o, old(Queued())[..m], Route(fed, m))
      ensures c == if stop || o.editing || (old(inchunkHead.kind) == DEDICATED && o.telnet) then m else m - fed
      ensures fed == 0 ==> userpass == old(userpass) && feeds == old(feeds)
    {
      hide Trace, Uniform, Echo, ChunkList, Total, Route, Expand, Tag, ChunksOf;
      ghost var q := Queued();
      var data, kind := Shown();
      var taken;
      stop, taken, fed, m := Handle(data, kind);
      assert q[..m] == TagAll(data, kind)[..m];
      c := taken;
      Consume(taken);
    }

    /** An empty chunk at the head of a queue that is not empty: the pass leaves
        everything as it was but the question to the backend, so the outer loop
        goes on until the backend says no. */
    method StuckPass() returns (stop: bool)
      requires Valid() && inputQueue != [] && Chunks()[0].size == 0
      modifies this`out, this`echoed, this`passes, this`feeds, this`userpass, this`held
      modifies this`inputQueue, this`inchunkHead, this`inchunkTail, this`spine, nodes
      ensures stop <==> !sendok(old(passes), false)
      ensures Valid() && inputQueue == old(inputQueue) && Chunks() == old(Chunks())
      ensures out == old(out) && echoed == old(echoed) && userpass == old(userpass)
    {
      hide ChunkList, Total, Expand, Tag, ChunksOf, Trace, Echo;
      HeadChunk(inchunkHead, inchunkTail, spine, |inputQueue|);
      ghost var fed, m, c;
      stop, fed, m, c := Pass();
      NothingTraced(o, old(Queued()));
      ConsumeNone(old(Chunks()));
      assert old(Queued())[0..] == old(Queued()) && old(inputQueue)[0..] == old(inputQueue);
    }

    /** ldisc_input_queue_callback, under the policy that no backend says yes
        while a userpass editor takes the input. If the list is not sound the
        loop depends on the backend, which says no in pass `n`. */
    method InputQueueCallback(ghost n: nat)
      requires Valid() && forall p: nat :: !sendok(p, true)
      requires Sound(Chunks()) || (passes <= n && !sendok(n, false))
      modifies this, nodes
      ensures Valid() && submitted == old(submitted) && |route| >= |old(route)| && nodes == old(nodes)
      ensures old(Sound(Chunks())) ==> Sound(Chunks())
      ensures old(Canonical(Chunks())) ==> Canonical(Chunks())
      ensures old(EmptyTail(Chunks())) ==> EmptyTail(Chunks())
      ensures inputQueue != [] ==> held
      ensures Straight(old(userpass), old(route), userpass, route)
      ensures inputQueue != [] && !old(userpass) ==> passes > 0 && !sendok(passes - 1, false)
    {
      hide Valid, Canonical, Sound, EmptyTail, ChunksOf;
      StraightOn(userpass, route, userpass, route, userpass, route);
      while |inputQueue| > 0
        invariant Valid() && submitted == old(submitted) && |route| >= |old(route)| && nodes == old(nodes)
        invariant Straight(old(userpass), old(route), userpass, route)
        invariant Sound(Chunks()) || (passes <= n && !sendok(n, false))
        invariant old(Sound(Chunks())) ==> Sound(Chunks())
        invariant old(Canonical(Chunks())) ==> Canonical(Chunks())
        invariant old(EmptyTail(Chunks())) ==> EmptyTail(Chunks())
        decreases |inputQueue|, if passes <= n then n - passes + 1 else 0
      {
        ghost var u, r := userpass, route;
        var stop := PassOn();
        StraightOn(old(userpass), old(route), u, r, userpass, route);
        if stop { break; }
      }
    }

    /** A pass with the account kept straight. */
    method PassOn() returns (stop: bool)
      requires Valid() && inputQueue != [] && forall p: nat :: !sendok(p, true)
      modifies this`out, this`echoed, this`passes, this`feeds, this`userpass, this`held, this`route
      modifies this`inputQueue, this`inchunkHead, this`inchunkTail, this`spine, nodes
      ensures Valid() && |route| >= |old(route)|
      ensures old(Sound(Chunks())) ==> Sound(Chunks())
      ensures old(Canonical(Chunks())) ==> Canonical(Chunks())
      ensures old(EmptyTail(Chunks())) ==> EmptyTail(Chunks())
      ensures held == stop && passes == old(passes) + 1
      ensures !stop ==> sendok(old(passes), false) && |inputQueue| <= |old(inputQueue)|
      ensures !stop && old(Sound(Chunks())) ==> |inputQueue| < |old(inputQueue)|
      ensures Straight(old(userpass), old(route), userpass, route) && (stop && !old(userpass) ==> !sendok(old(passes), false))
    {
      hide Trace, Uniform, Echo, ChunkList, Total, Expand, Canonical, Sound, EmptyTail, LdiscRules.Consume, ChunksOf, Route;
      hide Straight;
      ghost var cs := Chunks();
      SoundHead(cs, |inputQueue|);
      ghost var fed, m, c;
      stop, fed, m, c := Pass();
      ConsumeSound(cs, c);
      if Canonical(cs) { ConsumeCanonical(cs, c); }
      assert fed > 0 ==> stop;
      AccountGrows(o, submitted, route, m, Route(fed, m));
      StraightRoute(old(userpass), route, userpass, fed, m);
      route := route + Route(fed, m);
    }

    /** A new, empty chunk at the end unless the last one has the right type. */
    method NewChunk(kind: InputType)
      requires List()
      modifies this`inchunkHead, this`inchunkTail, this`spine, this`nodes, nodes
      ensures List() && spine != [] && inchunkTail == spine[|spine| - 1] && inchunkTail.kind == kind
      ensures fresh(nodes - old(nodes))
      ensures
        var cs := old(Chunks());
        Chunks() == if cs != [] && cs[|cs| - 1].kind == kind then cs else cs + [Chunk(kind, 0)]
    {
      ghost var cs := Chunks();
      if !(inchunkTail != null && inchunkTail.kind == kind) {
        var newChunk := new InputChunk(kind);
        ghost var was := spine;
        if inchunkTail != null { inchunkTail.next := newChunk; } else { inchunkHead := newChunk; }
        inchunkTail := newChunk;
        spine := spine + [newChunk];
        nodes := nodes + {newChunk};
        assert forall i :: 0 <= i < |was| ==> was[i].kind == cs[i].kind && was[i].size == cs[i].size;
        assert Chunks() == cs + [Chunk(kind, 0)];
      }
    }

    method GrowTail(len: nat)
      requires List() && spine != []
      modifies inchunkTail`size
      ensures List()
      ensures
        var cs := old(Chunks());
        Chunks() == cs[|cs| - 1 := Chunk(cs[|cs| - 1].kind, cs[|cs| - 1].size + len)]
    {
      inchunkTail.size := inchunkTail.size + len;
    }

    /** The part of ldisc_send that marks the appended data with its type. */
    method AppendChunk(kind: InputType, len: nat)
      requires List()
      modifies this`inchunkHead, this`inchunkTail, this`spine, this`nodes, nodes
      ensures List() && Chunks() == Append(old(Chunks()), kind, len)
      ensures fresh(nodes - old(nodes))
    {
      hide ChunksOf, ChunkList;
      NewChunk(kind);
      GrowTail(len);
    }

    /** bufchain_add and the marking. */
    method Submit(data: seq<Byte>, kind: InputType)
      requires Valid()
      modifies this`inputQueue, this`submitted, this`inchunkHead, this`inchunkTail, this`spine, this`nodes, nodes
      ensures Valid() && submitted == old(submitted) + TagAll(data, kind) && inputQueue == old(inputQueue) + data
      ensures Chunks() == Append(old(Chunks()), kind, |data|)
      ensures fresh(nodes - old(nodes))
    {
      hide Expand, ChunkList, Trace, Echo, Append;
      AppendExpands(Chunks(), kind, |data|);
      SubmitAccount(inputQueue, Expand(Chunks()), submitted, |route|, data, kind);
      AppendChunk(kind, |data|);
      inputQueue := inputQueue + data;
      submitted := submitted + TagAll(data, kind);
    }

    static function TypeOf(special: bool, interactive: bool): InputType {
      if special then DEDICATED else if interactive then NORMAL else NONINTERACTIVE
    }

    /** ldisc_send. `special` stands for a negative length: a NUL-terminated
        special string. After an empty one of them the list ends in an empty chunk;
        then data of another type makes the call depend on the backend, which says
        no in pass `n`. */
    method Send(data: seq<Byte>, special: bool, interactive: bool, ghost n: nat)
      requires Valid() && forall p: nat :: !sendok(p, true)
      requires Sound(Append(Chunks(), TypeOf(special, interactive), |data|)) || (passes <= n && !sendok(n, false))
      modifies this, nodes
      ensures Valid() && fresh(nodes - old(nodes))
      ensures submitted == old(submitted) + TagAll(data, if special then DEDICATED else if interactive then NORMAL else NONINTERACTIVE)
      ensures inputQueue == [] ==> |route| == |out| == |submitted| && forall i :: 0 <= i < |data| ==>
                out[|old(submitted)| + i] ==
                if route[|old(submitted)| + i] then Userpass(data[i], special || (!interactive && data[i] == 13))
                else Keyed(o, data[i], special, interactive)
      ensures (data != [] || special) && !old(userpass) && (forall p: nat :: sendok(p, false)) ==>
                inputQueue == [] && !userpass && forall k :: |old(route)| <= k < |route| ==> !route[k]
      ensures old(inputQueue) == [] && inputQueue == [] && !old(userpass) ==>
                echoed == old(echoed) + if o.editing || !o.echoing then [] else data
      ensures inputQueue != [] ==> held || (data == [] && inputQueue == old(inputQueue))
      ensures
        var cs := old(Chunks());
        && (Canonical(cs) ==>
              (Canonical(Chunks()) <==> data != [] || !special || (cs != [] && cs[|cs| - 1].kind == DEDICATED)))
        && (Canonical(cs) ==> Sound(Chunks()))
    {
      hide Canonical, Sound, EmptyTail, Append, Trace, Echo, Expand, ChunkList, ChunksOf, Keyed;
      ghost var cs := Chunks();
      if !special && |data| == 0 {
        assert TagAll(data, NORMAL) == [] && TagAll(data, NONINTERACTIVE) == [];
        CanonicalIsSound(cs);
        return;
      }
      var kind := TypeOf(special, interactive);
      AppendShape(cs, kind, |data|);
      Submit(data, kind);
      ghost var xs, r := submitted, route;
      InputQueueCallback(n);
      CanonicalIsSound(Chunks());
      if inputQueue == [] {
        AllOut(inputQueue, Expand(Chunks()), submitted, route);
        if old(inputQueue) == [] {
          AllOut(old(inputQueue), Expand(cs), old(submitted), old(route));
          if !old(userpass) { EchoOut(o, old(submitted), old(route), data, kind, route); }
        }
        forall i | 0 <= i < |data|
          ensures out[|old(submitted)| + i] ==
                  if route[|old(submitted)| + i] then Userpass(data[i], special || (!interactive && data[i] == 13))
                  else Keyed(o, data[i], special, interactive)
        {
          KeyedOut(o, submitted, route, |old(submitted)| + i, special, interactive);
        }
      }
    }

    /** ldisc_provide_userpass_le. */
    method ProvideUserpass(le: bool)
      requires Valid()
      modifies this`userpass
      ensures Valid() && userpass == le && Chunks() == old(Chunks()) && inputQueue == old(inputQueue)
    {
      userpass := le;
    }

    /** The queue's list is the run-length encoding of the queued types. */
    lemma ListIsRle()
      requires Valid() && Canonical(Chunks())
      ensures Chunks() == Rle(Expand(Chunks())) && |Expand(Chunks())| == |inputQueue|
    {
      CanonicalIsRle(Chunks());
    }
  }

  lemma SubmitAccount(bytes: seq<Byte>, kinds: seq<InputType>, submitted: seq<Tagged>, done: nat, data: seq<Byte>, kind: InputType)
    requires |bytes| == |kinds| && done <= |submitted| && Tag(bytes, kinds) == submitted[done..]
    ensures
      var more := TagAll(data, kind);
      && Tag(bytes + data, kinds + seq(|data|, _ => kind)) == (submitted + more)[done..]
      && (submitted + more)[..done] == submitted[..done]
  {
    TagCat(bytes, data, kinds, seq(|data|, _ => kind));
    assert Tag(data, seq(|data|, _ => kind)) == TagAll(data, kind);
  }

  /** Nothing queued: all that was submitted has come out. */
  lemma AllOut(bytes: seq<Byte>, kinds: seq<InputType>, submitted: seq<Tagged>, route: seq<bool>)
    requires |bytes| == |kinds| && |route| <= |submitted| && Tag(bytes, kinds) == submitted[|route|..] && bytes == []
    ensures |route| == |submitted| && submitted[..|route|] == submitted
  {
  }

  lemma StoppedBatch(o: Options, xs: seq<Tagged>)
    ensures Trace(o, xs, Route(|xs|, |xs|)) == Trace(o, xs, Uniform(|xs|, true))
    ensures Echo(o, xs, Route(|xs|, |xs|)) == []
  {
    assert Route(|xs|, |xs|) == Uniform(|xs|, true);
    EchoUniform(o, xs, true);
  }

  lemma ProcessedBatch(o: Options, data: seq<Byte>, kind: InputType, fed: nat)
    requires fed <= |data|
    ensures
      var xs := TagAll(data, kind);
      && Trace(o, xs, Route(fed, |xs|)) ==
         Trace(o, xs[..fed], Uniform(fed, true)) + Trace(o, xs[fed..], Uniform(|xs| - fed, false))
      && Echo(o, xs, Route(fed, |xs|)) == if o.editing || !o.echoing then [] else data[fed..]
  {
    var xs := TagAll(data, kind);
    TraceRoute(o, xs, fed);
    assert BytesOf(xs[fed..]) == data[fed..];
  }

  lemma ChunksTail(head: InputChunk?, tail: InputChunk?, ns: seq<InputChunk>)
    requires ChunkList(head, tail, ns) && ns != []
    ensures ChunkList(ns[0].next, if ns[0].next == null then null else tail, ns[1..])
  {
    var rest := ns[1..];
    assert ns[0].next == NextChunk(ns, 0);
    forall i | 0 <= i < |rest| ensures rest[i].next == NextChunk(rest, i) {
      assert ns[i + 1].next == NextChunk(ns, i + 1);
    }
  }

  lemma NothingTraced(o: Options, xs: seq<Tagged>)
    ensures Trace(o, xs[..0], Route(0, 0)) == [] && Echo(o, xs[..0], Route(0, 0)) == []
  {
    assert xs[..0] == [];
  }

  lemma ConsumeNone(cs: seq<Chunk>)
    ensures LdiscRules.Consume(cs, 0) == cs
  {
  }

  lemma HeadChunk(head: InputChunk?, tail: InputChunk?, ns: seq<InputChunk>, size: nat)
    requires ChunkList(head, tail, ns) && 0 < size <= Total(ChunksOf(ns))
    ensures ns != [] && ChunksOf(ns) != [] && head == ns[0]
    ensures head.size == ChunksOf(ns)[0].size && head.kind == ChunksOf(ns)[0].kind
  {
    assert Expand([]) == [];
  }

  /** In a sound list only the last chunk may be empty, so the first one is not
      while something is queued. */
  lemma SoundHead(cs: seq<Chunk>, size: nat)
    requires 0 < size <= Total(cs)
    ensures cs != [] && (Sound(cs) ==> cs[0].size > 0)
  {
    assert Expand([]) == [];
    if |cs| == 1 { assert cs[1..] == []; }
  }

  lemma AppendShape(cs: seq<Chunk>, kind: InputType, len: nat)
    requires len > 0 || kind == DEDICATED
    ensures
      Canonical(cs) ==>
        && Sound(Append(cs, kind, len))
        && (Canonical(Append(cs, kind, len)) <==> len > 0 || (cs != [] && cs[|cs| - 1].kind == kind))
        && (EmptyTail(Append(cs, kind, len)) <==> !Canonical(Append(cs, kind, len)))
  {
    if Canonical(cs) {
      AppendCanonical(cs, kind, len);
      CanonicalIsSound(cs);
      AppendSound(cs, kind, len);
      CanonicalIsSound(Append(cs, kind, len));
    }
  }

  /** One round of that loop. */
  lemma ConsumeStep(cs: seq<Chunk>, size: nat)
    requires cs != [] && 0 < size <= Total(cs)
    ensures
      var n := if size < cs[0].size then size else cs[0].size;
      var cs' := if n == cs[0].size then cs[1..] else [Chunk(cs[0].kind, cs[0].size - n)] + cs[1..];
      && size - n <= Total(cs') && LdiscRules.Consume(cs', size - n) == LdiscRules.Consume(cs, size)
  {
    var n := if size < cs[0].size then size else cs[0].size;
    assert Expand(cs) == seq(cs[0].size, _ => cs[0].kind) + Expand(cs[1..]);
  }

  /** Two bytes while a userpass editor takes one and the backend says yes all the
      same: the second byte is sent, and then is still queued. */
  method SentAndQueued() returns (ldisc: Ldisc)
    ensures ldisc.out == [Userpass(97, false), Event.Send(98)] && ldisc.inputQueue == [98]
  {
    hide Trace, Echo, Route, Uniform, Expand, Tag, ChunkList;
    var o := Options(false, false, false, false, false);
    ldisc := new Ldisc(o, (p, f) => true, p => 2, f => false);
    ldisc.Submit([97, 98], NORMAL);
    ldisc.ProvideUserpass(true);
    assert ldisc.Chunks() == [Chunk(NORMAL, 2)];
    TwoQueued(o, ldisc.inputQueue, ldisc.Chunks());
    HeadChunk(ldisc.inchunkHead, ldisc.inchunkTail, ldisc.spine, 2);
    assert ldisc.keeps(0) == false && ldisc.FedCount(2, 0) == 1;
    ghost var q := ldisc.Queued();
    var stop, fed, m, c := ldisc.Pass();
    assert m == 2 && fed == 1 && c == 1 && q[..2] == q;
  }

  lemma TwoQueued(o: Options, bytes: seq<Byte>, cs: seq<Chunk>)
    requires bytes == [97, 98] && cs == [Chunk(NORMAL, 2)] && o == Options(false, false, false, false, false)
    ensures Total(cs) == 2 && Trace(o, Tag(bytes, Expand(cs)), Route(1, 2)) == [Userpass(97, false), Event.Send(98)]
  {
    ExpandOne(Chunk(NORMAL, 2));
    var xs := Tag(bytes, Expand(cs));
    assert xs == [Tagged(97, NORMAL), Tagged(98, NORMAL)];
    assert Route(1, 2) == [true, false];
  }
}
