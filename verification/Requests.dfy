/** What one LoadImage request means: the hooks' rewrites, the firmware call and the pool, on values. */
module Requests {
  import opened Wrappers
  import opened Words
  import opened DevicePath

  /** A pool pointer: a block and an offset into it. */
  datatype Pointer = Pointer(block: nat, offset: nat)

  datatype Buffer = Buffer(ptr: Pointer, bytes: seq<Byte>)

  type Path = b: seq<Byte> | WellFormed(b, 0) witness END_NODE

  /** The arguments of LoadImage; SourceSize is the length of the source bytes. */
  datatype Request = Request(
    bootPolicy: bool, parent: int, path: Option<Path>, source: Option<Buffer>, imageHandle: int)

  /** Thinning returns a slice of its input, as an offset and a length. */
  type Thinning = f: seq<Byte> -> (nat, nat) | forall b :: f(b).0 + f(b).1 <= |b| witness (b: seq<Byte>) => (0, 0)

  /** The services around the hooks, free to answer anything; a failure status is None. */
  datatype Services = Services(
    bootPolicyProtocol: bool,
    locateDevice: Path -> Option<(int, Path)>,
    getBootFile: int -> Option<Path>,
    readFile: (bool, Option<Path>) -> Option<seq<Byte>>,
    thin: Thinning,
    firmware: Request -> int)

  /** Every hook, and then the firmware, asks at its own time, so the answers may change in between. */
  type Answers = nat -> Services

  /** A firmware call: its arguments and the pool blocks live at that moment. */
  datatype Call = Call(args: Request, pool: set<nat>)

  /** The pool, how often a pointer was freed that was no live block, the firmware calls made, and the time. */
  datatype World = World(pool: set<nat>, next: nat, badFrees: nat, calls: seq<Call>, time: nat) {
    ghost predicate Valid() {
      forall b :: b in pool ==> b < next
    }
  }

  function Free(w: World, p: Pointer): World {
    if p.offset == 0 && p.block in w.pool then w.(pool := w.pool - {p.block})
    else w.(badFrees := w.badFrees + 1)
  }

  datatype Hook = Bless | FatBinary

  /** The path Bless substitutes, if any. */
  ghost function BlessedPath(o: Services, r: Request): Option<Path> {
    if r.bootPolicy && r.source.None? && r.path.Some? && o.bootPolicyProtocol then
      match o.locateDevice(r.path.value)
      case None => None
      case Some((device, rest)) =>
        if EndsInFirstHardDrive(Parse(rest, 0)) then o.getBootFile(device) else None
    else None
  }

  /** Bless reaches the walk, for which it duplicates the rest of the path. */
  ghost predicate BlessDuplicates(o: Services, r: Request) {
    r.bootPolicy && r.source.None? && r.path.Some? && o.bootPolicyProtocol && o.locateDevice(r.path.value).Some?
  }

  ghost function BlessRequest(o: Services, r: Request): Request {
    var p := BlessedPath(o, r);
    if p.Some? then r.(path := p) else r
  }

  /** The duplicate stays behind after a rewrite and is freed otherwise. */
  ghost function BlessWorld(o: Services, r: Request, w: World): (w': World)
    ensures w'.time == w.time + 1 && w'.calls == w.calls && w'.badFrees == w.badFrees && w.pool <= w'.pool
  {
    if BlessedPath(o, r).Some? then w.(pool := w.pool + {w.next}, next := w.next + 1, time := w.time + 1)
    else if BlessDuplicates(o, r) then w.(next := w.next + 1, time := w.time + 1)
    else w.(time := w.time + 1)
  }

  ghost predicate FatReads(o: Services, r: Request) {
    r.source.None? && o.readFile(r.bootPolicy, r.path).Some?
  }

  /** The buffer FatBinary holds before thinning: the caller's, or the file it read into a new block. */
  ghost function FatOriginal(o: Services, r: Request, w: World): Option<Buffer> {
    if r.source.Some? then r.source
    else match o.readFile(r.bootPolicy, r.path)
         case None => None
         case Some(bytes) => Some(Buffer(Pointer(w.next, 0), bytes))
  }

  ghost function FatRequest(o: Services, r: Request, w: World): Request
  {
    match FatOriginal(o, r, w)
    case None => r
    case Some(buffer) => r.(source := Some(Thinned(o, buffer)))
  }

  function Thinned(o: Services, b: Buffer): Buffer
  {
    var (offset, length) := o.thin(b.bytes);
    Buffer(Pointer(b.ptr.block, b.ptr.offset + offset), b.bytes[offset..offset + length])
  }

  ghost function FatWorld(o: Services, r: Request, w: World): (w': World)
    ensures w'.time == w.time + 1 && w'.calls == w.calls && w'.badFrees == w.badFrees && w.pool <= w'.pool
  {
    if FatReads(o, r) then w.(pool := w.pool + {w.next}, next := w.next + 1, time := w.time + 1)
    else w.(time := w.time + 1)
  }

  ghost predicate Supplied(r: Request, w: World) {
    r.source.Some? ==> r.source.value.ptr.block in w.pool
  }

  /** What a hook passes on; a buffer in it is live if the one it got was, or none came. */
  ghost function HookRequest(o: Services, h: Hook, r: Request, w: World): (r': Request)
    ensures Supplied(r, w) ==> Supplied(r', HookWorld(o, h, r, w))
  {
    if h.Bless? then BlessRequest(o, r) else FatRequest(o, r, w)
  }

  ghost function HookWorld(o: Services, h: Hook, r: Request, w: World): (w': World)
    ensures w'.time == w.time + 1 && w'.calls == w.calls
  {
    if h.Bless? then BlessWorld(o, r, w) else FatWorld(o, r, w)
  }

  /** After the forwarded call FatBinary frees the buffer it held before thinning, and Bless nothing. */
  ghost function HookFrees(o: Services, h: Hook, r: Request, w: World, w': World): (w'': World)
    ensures w''.calls == w'.calls
  {
    if h.FatBinary? && FatOriginal(o, r, w).Some? then Free(w', FatOriginal(o, r, w).value.ptr) else w'
  }

  /** A request entering a chain, oldest hook first: the world it leaves and the status it returns. */
  ghost function Dispatch(os: Answers, hooks: seq<Hook>, r: Request, w: World): (World, int)
    decreases |hooks|
  {
    var o := os(w.time);
    if hooks == [] then (w.(calls := w.calls + [Call(r, w.pool)], time := w.time + 1), o.firmware(r))
    else
      var n := |hooks| - 1;
      var (w', status) := Dispatch(os, hooks[..n], HookRequest(o, hooks[n], r, w), HookWorld(o, hooks[n], r, w));
      (HookFrees(o, hooks[n], r, w, w'), status)
  }

  // ---- an independent reading: what a request says, without pointers ----

  datatype Args = Args(bootPolicy: bool, parent: int, path: Option<Path>, bytes: Option<seq<Byte>>, imageHandle: int)

  function View(r: Request): Args {
    Args(r.bootPolicy, r.parent, r.path, if r.source.Some? then Some(r.source.value.bytes) else None, r.imageHandle)
  }

  ghost function BlessArgs(o: Services, v: Args): Args {
    if v.bytes.Some? then v
    else
      var p := BlessedPath(o, Request(v.bootPolicy, v.parent, v.path, None, v.imageHandle));
      if p.Some? then v.(path := p) else v
  }

  function Slice(o: Services, bytes: seq<Byte>): seq<Byte>
  {
    bytes[o.thin(bytes).0..o.thin(bytes).0 + o.thin(bytes).1]
  }

  ghost function FatArgs(o: Services, v: Args): Args
  {
    if v.bytes.Some? then v.(bytes := Some(Slice(o, v.bytes.value)))
    else match o.readFile(v.bootPolicy, v.path)
         case None => v
         case Some(bytes) => v.(bytes := Some(Slice(o, bytes)))
  }

  ghost function HookArgs(o: Services, h: Hook, v: Args): Args
  {
    match h
    case Bless => BlessArgs(o, v)
    case FatBinary => FatArgs(o, v)
  }

  /** What a hook makes of the arguments at a time. */
  type Rewriting = (nat, Hook, Args) -> Args

  ghost function HookRewriting(os: Answers): Rewriting {
    (t: nat, h: Hook, v: Args) => HookArgs(os(t), h, v)
  }

  /** The rewrites of a chain, from the newest hook, which asks at time t, to the oldest. */
  function FoldWith(f: Rewriting, t: nat, hooks: seq<Hook>, v: Args): Args
    decreases |hooks|
  {
    if hooks == [] then v
    else FoldWith(f, t + 1, hooks[..|hooks| - 1], f(t, hooks[|hooks| - 1], v))
  }

  ghost function Fold(os: Answers, t: nat, hooks: seq<Hook>, v: Args): Args {
    FoldWith(HookRewriting(os), t, hooks, v)
  }

  /** The one firmware call of a request is sent. */
  ghost predicate Sends(os: Answers, hooks: seq<Hook>, r: Request, w: World, sent: Call) {
    Dispatch(os, hooks, r, w).0.calls == w.calls + [sent]
  }

  /**
   One firmware call, with the folded arguments, whose status comes back unchanged.  A buffer it is given that
   was live, or that a hook read, is still live then: hooks free only after the call.
   */
  lemma {:induction false} OneFirmwareCall(os: Answers, hooks: seq<Hook>, r: Request, w: World) returns (sent: Call)
    ensures Sends(os, hooks, r, w, sent)
    ensures View(sent.args) == Fold(os, w.time, hooks, View(r))
    ensures Dispatch(os, hooks, r, w).1 == os(w.time + |hooks|).firmware(sent.args)
    ensures Supplied(r, w) && sent.args.source.Some? ==> sent.args.source.value.ptr.block in sent.pool
    decreases |hooks|
  {
    if hooks == [] {
      sent := Call(r, w.pool);
    } else {
      var n, o := |hooks| - 1, os(w.time);
      HookView(o, hooks[n], r, w);
      var w1 := HookWorld(o, hooks[n], r, w);
      sent := OneFirmwareCall(os, hooks[..n], HookRequest(o, hooks[n], r, w), w1);
      assert w1.time + n == w.time + |hooks|;
    }
  }

  lemma HookView(o: Services, h: Hook, r: Request, w: World)
    ensures View(HookRequest(o, h, r, w)) == HookArgs(o, h, View(r))
  {
    BlessView(o, r);
    FatView(o, r, w);
  }

  lemma BlessView(o: Services, r: Request)
    ensures View(BlessRequest(o, r)) == BlessArgs(o, View(r))
  {
    if r.source.None? {
      assert r == Request(r.bootPolicy, r.parent, r.path, None, r.imageHandle);
    }
  }

  lemma FatView(o: Services, r: Request, w: World)
    ensures View(FatRequest(o, r, w)) == FatArgs(o, View(r))
  {
  }

  lemma {:induction false} FoldAppend(f: Rewriting, t: nat, below: seq<Hook>, above: seq<Hook>, v: Args)
    ensures FoldWith(f, t, below + above, v) == FoldWith(f, t + |above|, below, FoldWith(f, t, above, v))
    decreases |above|
  {
    if above == [] {
      assert below + above == below;
    } else {
      var n := |above| - 1;
      var rest, h := above[..n], above[n];
      FoldAppend(f, t + 1, below, rest, f(t, h, v));
      assert t + 1 + |rest| == t + |above|;
      FoldLast(f, t, rest, h, v);
      FoldLast(f, t, below + rest, h, v);
      assert above == rest + [h] && below + above == (below + rest) + [h];
    }
  }

  lemma {:induction false} FoldLast(f: Rewriting, t: nat, hooks: seq<Hook>, h: Hook, v: Args)
    ensures FoldWith(f, t, hooks + [h], v) == FoldWith(f, t + 1, hooks, f(t, h, v))
  {
    assert (hooks + [h])[..|hooks|] == hooks;
  }

  /** What the two orders of one Bless and one FatBinary hand down. */
  lemma {:induction false} TwoHooks(os: Answers, t: nat, v: Args)
    ensures Fold(os, t, [FatBinary, Bless], v) == FatArgs(os(t + 1), BlessArgs(os(t), v))
    ensures Fold(os, t, [Bless, FatBinary], v) == BlessArgs(os(t + 1), FatArgs(os(t), v))
  {
    assert [FatBinary, Bless][..1] == [FatBinary] && [Bless, FatBinary][..1] == [Bless];
    assert [FatBinary][..0] == [] && [Bless][..0] == [];
  }

  /**
   When both get the same answers, the two installation orders hand down the same arguments exactly when Bless
   leaves the path as it is, or no file can be read under either path.
   */
  lemma {:induction false} OrdersAgreeExactlyWhen(os: Answers, t: nat, v: Args)
    requires os(t) == os(t + 1)
    ensures var o := os(t);
      Fold(os, t, [FatBinary, Bless], v) == Fold(os, t, [Bless, FatBinary], v) <==>
        || BlessArgs(o, v) == v
        || (o.readFile(v.bootPolicy, v.path).None? && o.readFile(v.bootPolicy, BlessArgs(o, v).path).None?)
  {
    TwoHooks(os, t, v);
  }

  /** In any chain, swapping two neighbours is invisible when Bless would not rewrite what reaches them. */
  lemma {:induction false} NeighboursCommute(os: Answers, below: seq<Hook>, above: seq<Hook>, r: Request, w: World)
    returns (sent: Call, sent': Call)
    requires var t := w.time + |above|;
      os(t) == os(t + 1) && var v := Fold(os, w.time, above, View(r)); BlessArgs(os(t), v) == v
    ensures Sends(os, below + [FatBinary, Bless] + above, r, w, sent)
    ensures Sends(os, below + [Bless, FatBinary] + above, r, w, sent')
    ensures View(sent.args) == View(sent'.args)
  {
    var t, v := w.time + |above|, Fold(os, w.time, above, View(r));
    PairCommutes(os, t, v);
    SameBelow(HookRewriting(os), w.time, below, [FatBinary, Bless], [Bless, FatBinary], above, View(r));
    sent := OneFirmwareCall(os, below + [FatBinary, Bless] + above, r, w);
    sent' := OneFirmwareCall(os, below + [Bless, FatBinary] + above, r, w);
  }

  /** Middles that pass on the same make chains that do. */
  lemma {:induction false} SameBelow(
    f: Rewriting, t: nat, below: seq<Hook>, middle: seq<Hook>, middle': seq<Hook>, above: seq<Hook>, v: Args)
    requires |middle| == |middle'|
    requires var u, reaching := t + |above|, FoldWith(f, t, above, v);
      FoldWith(f, u, middle, reaching) == FoldWith(f, u, middle', reaching)
    ensures FoldWith(f, t, below + middle + above, v) == FoldWith(f, t, below + middle' + above, v)
  {
    FoldAround(f, t, below, middle, above, v);
    FoldAround(f, t, below, middle', above, v);
  }

  lemma {:induction false} PairCommutes(os: Answers, t: nat, v: Args)
    requires os(t) == os(t + 1) && BlessArgs(os(t), v) == v
    ensures Fold(os, t, [FatBinary, Bless], v) == Fold(os, t, [Bless, FatBinary], v)
  {
    OrdersAgreeExactlyWhen(os, t, v);
  }

  lemma {:induction false} FoldAround(
    f: Rewriting, t: nat, below: seq<Hook>, pair: seq<Hook>, above: seq<Hook>, v: Args)
    ensures FoldWith(f, t, below + pair + above, v) ==
      FoldWith(f, t + |above| + |pair|, below, FoldWith(f, t + |above|, pair, FoldWith(f, t, above, v)))
  {
    var u, reaching := t + |above|, FoldWith(f, t, above, v);
    assert FoldWith(f, t, (below + pair) + above, v) == FoldWith(f, u, below + pair, reaching) by {
      FoldAppend(f, t, below + pair, above, v);
    }
    assert FoldWith(f, u, below + pair, reaching) == FoldWith(f, u + |pair|, below, FoldWith(f, u, pair, reaching)) by {
      FoldAppend(f, u, below, pair, reaching);
    }
  }

  /**
   In any chain a FatBinary that no buffer reaches reads, and thins, the file named by the path that the hooks above it
   have made of the request's.
   */
  lemma {:induction false} PathFromAboveIsRead(os: Answers, below: seq<Hook>, above: seq<Hook>, r: Request, w: World)
    returns (sent: Call)
    requires Fold(os, w.time, above, View(r)).bytes.None?
    ensures Sends(os, below + [FatBinary] + above, r, w, sent)
    ensures var t, v := w.time + |above|, Fold(os, w.time, above, View(r));
      match os(t).readFile(v.bootPolicy, v.path)
      case None => View(sent.args) == Fold(os, t + 1, below, v)
      case Some(bytes) => View(sent.args) == Fold(os, t + 1, below, v.(bytes := Some(Slice(os(t), bytes))))
  {
    FoldThrough(HookRewriting(os), w.time, below, FatBinary, above, View(r));
    sent := OneFirmwareCall(os, below + [FatBinary] + above, r, w);
  }

  lemma {:induction false} FoldThrough(f: Rewriting, t: nat, below: seq<Hook>, h: Hook, above: seq<Hook>, v: Args)
    ensures var u := t + |above|;
      FoldWith(f, t, below + [h] + above, v) == FoldWith(f, u + 1, below, f(u, h, FoldWith(f, t, above, v)))
  {
    FoldAround(f, t, below, [h], above, v);
    OneFold(f, t + |above|, h, FoldWith(f, t, above, v));
  }

  lemma {:induction false} OneFold(f: Rewriting, t: nat, h: Hook, v: Args)
    ensures FoldWith(f, t, [h], v) == f(t, h, v)
  {
    FoldLast(f, t, [], h, v);
    assert [] + [h] == [h];
  }

  /** Bless above FatBinary: the file read and thinned is the one the rewritten path names. */
  lemma {:induction false} RewrittenPathIsRead(os: Answers, t: nat, v: Args)
    requires BlessArgs(os(t), v) != v
    ensures var q := BlessArgs(os(t), v).path;
      match os(t + 1).readFile(v.bootPolicy, q)
      case None => Fold(os, t, [FatBinary, Bless], v) == v.(path := q)
      case Some(bytes) =>
        Fold(os, t, [FatBinary, Bless], v) == v.(path := q, bytes := Some(Slice(os(t + 1), bytes)))
  {
    TwoHooks(os, t, v);
  }

  // ---- one hook, spelled out ----

  lemma {:induction false} OneHookSends(os: Answers, h: Hook, r: Request, w: World)
    ensures var o := os(w.time);
      Sends(os, [h], r, w, Call(HookRequest(o, h, r, w), HookWorld(o, h, r, w).pool))
  {
    assert [h][..0] == [];
  }

  /**
   Bless at work: the located rest of the path is some nodes and then a hard-drive partition, the first one, and
   there is a boot file on the device.  Then the firmware gets that file's path, and the duplicate is still there.
   */
  lemma {:induction false} BlessSendsBootFile(
    os: Answers, r: Request, w: World, device: int, rest: Path, front: seq<Node>, hd: Node, file: Path)
    requires var o := os(w.time);
      && r.bootPolicy && r.source.None? && r.path.Some? && o.bootPolicyProtocol
      && o.locateDevice(r.path.value) == Some((device, rest)) && o.getBootFile(device) == Some(file)
    requires (forall n <- front + [hd] :: NodeOk(n)) && rest == Encode(front + [hd])
    requires (forall n <- front :: !(n.kind == 4 && n.subKind == 1)) && hd.kind == 4 && hd.subKind == 1
    ensures Sends(os, [Bless], r, w, Call(r.(path := Some(file)), w.pool + {w.next}))
  {
    RestParses(rest, front + [hd]);
    OneHookSends(os, Bless, r, w);
  }

  /** Otherwise, once the path is located: no hard-drive node, one that is followed by another node, or no boot file. */
  lemma {:induction false} BlessSendsOwnPath(
    os: Answers, r: Request, w: World, device: int, rest: Path, nodes: seq<Node>, i: nat)
    requires r.path.Some? && os(w.time).locateDevice(r.path.value) == Some((device, rest))
    requires (forall n <- nodes :: NodeOk(n)) && rest == Encode(nodes)
    requires i <= |nodes| && forall j :: 0 <= j < i ==> !(nodes[j].kind == 4 && nodes[j].subKind == 1)
    requires i == |nodes| || (nodes[i].kind == 4 && nodes[i].subKind == 1)
    requires i + 1 == |nodes| ==> os(w.time).getBootFile(device).None?
    ensures Sends(os, [Bless], r, w, Call(r, w.pool))
  {
    RestParses(rest, nodes);
    OneHookSends(os, Bless, r, w);
  }

  /** And whenever the request is not Bless's business or a look-up fails. */
  lemma {:induction false} BlessStandsAside(os: Answers, r: Request, w: World)
    requires var o := os(w.time);
      || !r.bootPolicy || r.source.Some? || r.path.None? || !o.bootPolicyProtocol
      || o.locateDevice(r.path.value).None?
    ensures Sends(os, [Bless], r, w, Call(r, w.pool))
  {
    OneHookSends(os, Bless, r, w);
  }

  lemma {:induction false} RestParses(rest: Path, nodes: seq<Node>)
    requires (forall n <- nodes :: NodeOk(n)) && rest == Encode(nodes)
    ensures Parse(rest, 0) == nodes
  {
    assert rest[0..] == rest;
    ParseEncode(rest, 0, nodes);
  }

  /** FatBinary passes on the slice that thinning chose, at its own address: of the file it read to a new block ... */
  lemma {:induction false} FatBinarySendsFile(os: Answers, r: Request, w: World, bytes: seq<Byte>)
    requires r.source.None? && os(w.time).readFile(r.bootPolicy, r.path) == Some(bytes)
    ensures var (offset, length) := os(w.time).thin(bytes);
      var slice := Buffer(Pointer(w.next, offset), bytes[offset..offset + length]);
      Sends(os, [FatBinary], r, w, Call(r.(source := Some(slice)), w.pool + {w.next}))
  {
    OneHookSends(os, FatBinary, r, w);
  }

  /** ... or of the buffer that came along ... */
  lemma {:induction false} FatBinarySendsBuffer(os: Answers, r: Request, w: World, b: Buffer)
    requires r.source == Some(b)
    ensures var (offset, length) := os(w.time).thin(b.bytes);
      var slice := Buffer(Pointer(b.ptr.block, b.ptr.offset + offset), b.bytes[offset..offset + length]);
      Sends(os, [FatBinary], r, w, Call(r.(source := Some(slice)), w.pool))
  {
    OneHookSends(os, FatBinary, r, w);
  }

  /** ... and the request as it is if there is neither. */
  lemma {:induction false} FatBinarySendsNothing(os: Answers, r: Request, w: World)
    requires r.source.None? && os(w.time).readFile(r.bootPolicy, r.path).None?
    ensures Sends(os, [FatBinary], r, w, Call(r, w.pool))
  {
    OneHookSends(os, FatBinary, r, w);
  }

  /** The buffer's bytes are those found at its pointer in a block that holds the given bytes from base on. */
  predicate SliceOf(b: Buffer, base: Pointer, bytes: seq<Byte>) {
    && b.ptr.block == base.block && base.offset <= b.ptr.offset
    && var from := b.ptr.offset - base.offset;
       from + |b.bytes| <= |bytes| && b.bytes == bytes[from..from + |b.bytes|]
  }

  lemma SliceOfSlice(o: Services, b: Buffer, base: Pointer, bytes: seq<Byte>)
    requires SliceOf(b, base, bytes)
    ensures SliceOf(Thinned(o, b), base, bytes)
  {
    var from := b.ptr.offset - base.offset;
    var (offset, length) := o.thin(b.bytes);
    assert offset + length <= |b.bytes|;
    SubSlice(bytes, from, |b.bytes|, offset, length);
  }

  lemma SubSlice(s: seq<Byte>, from: nat, count: nat, offset: nat, length: nat)
    requires from + count <= |s| && offset + length <= count
    ensures s[from..from + count][offset..offset + length] == s[from + offset..from + offset + length]
  {
    var whole := s[from..from + count];
    var a, b := whole[offset..offset + length], s[from + offset..from + offset + length];
    forall i | 0 <= i < |a|
      ensures a[i] == b[i]
    {
      assert a[i] == whole[offset + i] == s[from + (offset + i)];
    }
    assert a == b;
  }

  /** Through any chain, what the firmware is given is a slice of the supplied buffer, at its own address. */
  lemma {:induction false} SuppliedSliceIsSent(
    os: Answers, hooks: seq<Hook>, r: Request, w: World, base: Pointer, bytes: seq<Byte>)
    returns (sent: Call)
    requires r.source.Some? && SliceOf(r.source.value, base, bytes)
    ensures Sends(os, hooks, r, w, sent)
    ensures sent.args.source.Some? && SliceOf(sent.args.source.value, base, bytes)
    decreases |hooks|
  {
    if hooks == [] {
      sent := Call(r, w.pool);
    } else {
      var n, o := |hooks| - 1, os(w.time);
      if hooks[n].FatBinary? {
        SliceOfSlice(o, r.source.value, base, bytes);
      }
      sent := SuppliedSliceIsSent(
        os, hooks[..n], HookRequest(o, hooks[n], r, w), HookWorld(o, hooks[n], r, w), base, bytes);
    }
  }

  /** Without a buffer: a slice, at its own address, of a file read into a new block under the path of that moment. */
  lemma {:induction false} FileSliceIsSent(os: Answers, hooks: seq<Hook>, r: Request, w: World)
    returns (sent: Call, block: nat, t: nat, path: Option<Path>)
    requires r.source.None?
    ensures Sends(os, hooks, r, w, sent)
    ensures sent.args.source.Some? <==> BelowReader(os, w.time, hooks, View(r)).Some?
    ensures sent.args.source.Some? ==>
      var file := os(t).readFile(r.bootPolicy, path);
      block >= w.next && file.Some? && SliceOf(sent.args.source.value, Pointer(block, 0), file.value)
    decreases |hooks|
  {
    block, t, path := w.next, w.time, r.path;
    if hooks == [] {
      sent := Call(r, w.pool);
    } else {
      var n, o := |hooks| - 1, os(w.time);
      var r1, w1 := HookRequest(o, hooks[n], r, w), HookWorld(o, hooks[n], r, w);
      HookView(o, hooks[n], r, w);
      if r1.source.None? {
        sent, block, t, path := FileSliceIsSent(os, hooks[..n], r1, w1);
      } else {
        var bytes := o.readFile(r.bootPolicy, r.path).value;
        SliceOfSlice(o, Buffer(Pointer(w.next, 0), bytes), Pointer(w.next, 0), bytes);
        sent := SuppliedSliceIsSent(os, hooks[..n], r1, w1, Pointer(w.next, 0), bytes);
      }
    }
  }

  // ---- pool accounting ----

  function FatCount(hooks: seq<Hook>): nat {
    if hooks == [] then 0
    else FatCount(hooks[..|hooks| - 1]) + if hooks[|hooks| - 1].FatBinary? then 1 else 0
  }

  /**
   A request that carries a buffer: every FatBinary frees the pointer it got.  For the base of a live block that
   is one valid free, which takes the buffer from its owner, and a bad one for each further FatBinary; for any
   other pointer every free is bad.
   */
  lemma {:induction false} SuppliedBuffer(os: Answers, hooks: seq<Hook>, r: Request, w: World)
    requires r.source.Some?
    ensures var p := r.source.value.ptr;
      var w' := Dispatch(os, hooks, r, w).0;
      && w'.next == w.next
      && if p.offset == 0 && p.block in w.pool && FatCount(hooks) > 0
         then w'.pool == w.pool - {p.block} && w'.badFrees == w.badFrees + FatCount(hooks) - 1
         else w'.pool == w.pool && w'.badFrees == w.badFrees + FatCount(hooks)
    decreases |hooks|
  {
    if hooks != [] {
      var n := |hooks| - 1;
      match hooks[n]
      case Bless => SuppliedBuffer(os, hooks[..n], r, w.(time := w.time + 1));
      case FatBinary => SuppliedBuffer(os, hooks[..n], FatRequest(os(w.time), r, w), w.(time := w.time + 1));
    }
  }

  /** The hooks below the FatBinary that reads a file for these arguments, if one does, newest first. */
  ghost function BelowReader(os: Answers, t: nat, hooks: seq<Hook>, v: Args): Option<seq<Hook>>
    decreases |hooks|
  {
    if hooks == [] then None
    else
      var n := |hooks| - 1;
      if hooks[n].FatBinary? && os(t).readFile(v.bootPolicy, v.path).Some? then Some(hooks[..n])
      else BelowReader(os, t + 1, hooks[..n], HookArgs(os(t), hooks[n], v))
  }

  /** How many Bless hooks rewrite the path before a file is read. */
  ghost function Rewrites(os: Answers, t: nat, hooks: seq<Hook>, v: Args): nat
    decreases |hooks|
  {
    if hooks == [] || v.bytes.Some? then 0
    else
      var n := |hooks| - 1;
      var p := BlessedPath(os(t), Request(v.bootPolicy, v.parent, v.path, None, v.imageHandle));
      Rewrites(os, t + 1, hooks[..n], HookArgs(os(t), hooks[n], v)) + if hooks[n].Bless? && p.Some? then 1 else 0
  }

  /** Blocks in w' and not in w are new ones, and there are k of them. */
  ghost predicate Gains(w: World, w': World, k: nat) {
    && w'.Valid() && w.next <= w'.next && w.pool <= w'.pool
    && (forall b :: b in w'.pool - w.pool ==> w.next <= b)
    && |w'.pool - w.pool| == k
  }

  lemma BlessGains(o: Services, r: Request, w: World, w': World, k: nat)
    requires w.Valid() && Gains(BlessWorld(o, r, w), w', k)
    ensures Gains(w, w', k + if BlessedPath(o, r).Some? then 1 else 0)
  {
    var w1 := BlessWorld(o, r, w);
    if BlessedPath(o, r).Some? {
      assert w'.pool - w.pool == (w'.pool - w1.pool) + {w.next};
    }
  }

  /** What a request without a buffer does to the pool. */
  ghost predicate FileOutcome(os: Answers, hooks: seq<Hook>, r: Request, w: World) {
    var w' := Dispatch(os, hooks, r, w).0;
    var below := BelowReader(os, w.time, hooks, View(r));
    && Gains(w, w', Rewrites(os, w.time, hooks, View(r)))
    && w'.badFrees == w.badFrees + if below.Some? then FatCount(below.value) else 0
  }

  /** A Bless on top adds its own duplicate, if it rewrites, to what the hooks beneath leave. */
  lemma {:induction false} BlessOutcome(os: Answers, hooks: seq<Hook>, r: Request, w: World)
    requires w.Valid() && r.source.None? && hooks != [] && hooks[|hooks| - 1].Bless?
    requires var o := os(w.time); FileOutcome(os, hooks[..|hooks| - 1], BlessRequest(o, r), BlessWorld(o, r, w))
    ensures FileOutcome(os, hooks, r, w)
  {
    var n, o := |hooks| - 1, os(w.time);
    BlessView(o, r);
    assert r == Request(r.bootPolicy, r.parent, r.path, None, r.imageHandle);
    var beneath := Rewrites(os, w.time + 1, hooks[..n], View(BlessRequest(o, r)));
    BlessGains(o, r, w, Dispatch(os, hooks, r, w).0, beneath);
  }

  /** The FatBinary that reads the file frees it, unless one further down has: then its own free is the bad one. */
  lemma {:induction false} ReaderOutcome(os: Answers, hooks: seq<Hook>, r: Request, w: World)
    requires w.Valid() && hooks != [] && hooks[|hooks| - 1].FatBinary? && FatReads(os(w.time), r)
    ensures FileOutcome(os, hooks, r, w)
  {
    var n, o := |hooks| - 1, os(w.time);
    var w' := Dispatch(os, hooks, r, w).0;
    SuppliedBuffer(os, hooks[..n], FatRequest(o, r, w), FatWorld(o, r, w));
    assert w.next !in w.pool;
    assert w'.pool == w.pool;
    assert w'.pool - w.pool == {};
    NothingRewritten(os, w.time + 1, hooks[..n], FatArgs(o, View(r)));
  }

  lemma {:induction false} NothingRewritten(os: Answers, t: nat, hooks: seq<Hook>, v: Args)
    requires v.bytes.Some?
    ensures Rewrites(os, t, hooks, v) == 0
  {
  }

  lemma {:induction false} NoFileOutcome(os: Answers, hooks: seq<Hook>, r: Request, w: World)
    requires w.Valid() && r.source.None? && hooks != [] && hooks[|hooks| - 1].FatBinary? && !FatReads(os(w.time), r)
    requires FileOutcome(os, hooks[..|hooks| - 1], r, FatWorld(os(w.time), r, w))
    ensures FileOutcome(os, hooks, r, w)
  {
    assert HookArgs(os(w.time), FatBinary, View(r)) == View(r);
  }

  lemma {:induction false} FileOutcomeHolds(os: Answers, hooks: seq<Hook>, r: Request, w: World)
    requires w.Valid() && r.source.None?
    ensures FileOutcome(os, hooks, r, w)
    decreases |hooks|
  {
    if hooks == [] {
      assert w.pool - w.pool == {};
    } else {
      var n, o := |hooks| - 1, os(w.time);
      match hooks[n]
      case Bless =>
        FileOutcomeHolds(os, hooks[..n], BlessRequest(o, r), BlessWorld(o, r, w));
        BlessOutcome(os, hooks, r, w);
      case FatBinary =>
        if FatReads(o, r) {
          ReaderOutcome(os, hooks, r, w);
        } else {
          FileOutcomeHolds(os, hooks[..n], r, FatWorld(o, r, w));
          NoFileOutcome(os, hooks, r, w);
        }
    }
  }

  /**
   A request without a buffer: nothing live before is lost, the file buffer is gone again, one duplicate stays
   for each rewrite, and there is one bad free for each FatBinary below the one that read the file.
   */
  lemma {:induction false} FileRequest(os: Answers, hooks: seq<Hook>, r: Request, w: World)
    requires w.Valid() && r.source.None?
    ensures var w' := Dispatch(os, hooks, r, w).0;
      var below := BelowReader(os, w.time, hooks, View(r));
      && Gains(w, w', Rewrites(os, w.time, hooks, View(r)))
      && w'.badFrees == w.badFrees + if below.Some? then FatCount(below.value) else 0
  {
    FileOutcomeHolds(os, hooks, r, w);
  }

  /** The chain frees correctly exactly when no FatBinary sits below the one that reads the file. */
  lemma {:induction false} FreesCorrectlyExactlyWhen(os: Answers, hooks: seq<Hook>, r: Request, w: World)
    requires w.Valid() && r.source.None?
    ensures var below := BelowReader(os, w.time, hooks, View(r));
      Dispatch(os, hooks, r, w).0.badFrees == w.badFrees <==> below.None? || FatCount(below.value) == 0
  {
    FileRequest(os, hooks, r, w);
  }

  /** In particular one FatBinary, wherever it sits among Bless hooks, frees what it read once and nothing else. */
  lemma {:induction false} OneFatBinaryFreesCorrectly(os: Answers, hooks: seq<Hook>, r: Request, w: World)
    requires w.Valid() && r.source.None? && FatCount(hooks) <= 1
    ensures Dispatch(os, hooks, r, w).0.badFrees == w.badFrees
  {
    FreesCorrectlyExactlyWhen(os, hooks, r, w);
    ReaderIsAboveTheRest(os, w.time, hooks, View(r));
  }

  lemma {:induction false} ReaderIsAboveTheRest(os: Answers, t: nat, hooks: seq<Hook>, v: Args)
    ensures var below := BelowReader(os, t, hooks, v); below.Some? ==> FatCount(below.value) < FatCount(hooks)
    decreases |hooks|
  {
    if hooks != [] {
      var n := |hooks| - 1;
      if !(hooks[n].FatBinary? && os(t).readFile(v.bootPolicy, v.path).Some?) {
        ReaderIsAboveTheRest(os, t + 1, hooks[..n], HookArgs(os(t), hooks[n], v));
      }
    }
  }

  /** Two FatBinary hooks and a readable file: one of the two frees is of no live block. */
  lemma {:induction false} TwoFatBinariesFreeBadly(os: Answers, r: Request, w: World)
    requires w.Valid() && FatReads(os(w.time), r)
    ensures Dispatch(os, [FatBinary, FatBinary], r, w).0.badFrees == w.badFrees + 1
  {
    var hooks := [FatBinary, FatBinary];
    FileRequest(os, hooks, r, w);
    assert hooks[..1] == [FatBinary] && [FatBinary][..0] == [];
    assert FatCount([FatBinary]) == 1;
  }
}
