/**
 The LoadImage hook drivers at work: each pushes itself onto the boot-services table, remembers its
 predecessor in mLoadImage, and pops itself on unload, refreshing the table's CRC at high TPL.
 */
module HookChain {
  import opened Wrappers
  import opened DevicePath
  import opened Requests

  const TPL_HIGH_LEVEL: nat := 31

  /** What a LoadImage pointer can point to. */
  datatype Routine = Original | InternalLoadImage(driver: Driver)

  class Driver {
    const kind: Hook
    var mLoadImage: Option<Routine>

    constructor (kind: Hook)
      ensures this.kind == kind && mLoadImage == None
    {
      this.kind := kind;
      mLoadImage := None;
    }
  }

  /** The routine on top of a stack of live drivers, oldest first. */
  function TopOf(live: seq<Driver>): Routine {
    if live == [] then Original else InternalLoadImage(live[|live| - 1])
  }

  ghost function Kinds(live: seq<Driver>): (hooks: seq<Hook>)
    ensures |hooks| == |live| && forall i :: 0 <= i < |live| ==> hooks[i] == live[i].kind
  {
    seq(|live|, i requires 0 <= i < |live| => live[i].kind)
  }

  /** Each driver is live once and remembers the one beneath it, the oldest the firmware's routine. */
  ghost predicate Remembered(live: seq<Driver>)
    reads live
  {
    && (forall i, j :: 0 <= i < j < |live| ==> live[i] != live[j])
    && (forall i :: 0 <= i < |live| ==> RemembersBelow(live, i))
  }

  ghost predicate RemembersBelow(live: seq<Driver>, i: int)
    requires 0 <= i < |live|
    reads live
  {
    live[i].mLoadImage == Some(if i == 0 then Original else InternalLoadImage(live[i - 1]))
  }

  /** The firmware: the boot-services table (LoadImage and CRC; the rest is constant), the TPL and the pool. */
  class Firmware {
    /** What the services answer, request by request and hook by hook. */
    const answers: Answers
    /** CRC-32 of the table with its CRC field taken as zero (section 4.2 of the UEFI Specification). */
    const crc32: Routine -> int
    /** Whether DEBUG_CODE is compiled in. */
    const debug: bool

    var loadImage: Routine
    var crc: int
    var tpl: nat
    /** After each change of the table or the TPL: the TPL, and whether the stored CRC is right. */
    ghost var observed: seq<(nat, bool)>

    var pool: set<nat>
    var next: nat
    var badFrees: nat
    var calls: seq<Call>
    var time: nat

    ghost predicate CrcOk()
      reads this
    {
      crc == crc32(loadImage)
    }

    /** The table is what a stack of live drivers makes it. */
    ghost predicate Holds(live: seq<Driver>)
      reads this, live
    {
      loadImage == TopOf(live) && Remembered(live) && CrcOk()
    }

    ghost function PoolState(): World
      reads this
    {
      Requests.World(pool, next, badFrees, calls, time)
    }

    method Observe()
      modifies this`observed
      ensures observed == old(observed) + [(tpl, CrcOk())]
    {
      observed := observed + [(tpl, CrcOk())];
    }

    method RaiseTpl(level: nat) returns (oldTpl: nat)
      modifies this`tpl, this`observed
      ensures oldTpl == old(tpl) && tpl == level && observed == old(observed) + [(tpl, CrcOk())]
    {
      oldTpl := tpl;
      tpl := level;
      Observe();
    }

    method RestoreTpl(level: nat)
      modifies this`tpl, this`observed
      ensures tpl == level && observed == old(observed) + [(tpl, CrcOk())]
    {
      tpl := level;
      Observe();
    }

    method SetLoadImage(r: Routine)
      modifies this`loadImage, this`observed
      ensures loadImage == r && observed == old(observed) + [(tpl, CrcOk())]
    {
      loadImage := r;
      Observe();
    }

    method UpdateCrc()
      modifies this`crc, this`observed
      ensures CrcOk() && observed == old(observed) + [(tpl, true)]
    {
      crc := crc32(loadImage);
      Observe();
    }

    // ---- pool services ----

    method AllocatePool() returns (block: nat)
      modifies this`pool, this`next
      ensures block == old(next) && PoolState() == old(PoolState().(pool := pool + {next}, next := next + 1))
    {
      block := next;
      pool := pool + {next};
      next := next + 1;
    }

    method FreePool(p: Pointer)
      modifies this`pool, this`badFrees
      ensures PoolState() == Free(old(PoolState()), p)
    {
      if p.offset == 0 && p.block in pool {
        pool := pool - {p.block};
      } else {
        badFrees := badFrees + 1;
      }
    }

    // ---- a request ----

    /** Calls the routine a pointer points to; the chain beneath it is ds. */
    method LoadImage(routine: Routine, r: Request, ghost ds: seq<Driver>) returns (status: int)
      requires PoolState().Valid() && Remembered(ds) && routine == TopOf(ds)
      modifies this`pool, this`next, this`badFrees, this`calls, this`time
      ensures (PoolState(), status) == Dispatch(answers, Kinds(ds), r, old(PoolState()))
      ensures PoolState().Valid()
      decreases |ds|, 1
    {
      match routine {
        case Original =>
          calls := calls + [Call(r, pool)];
          status := answers(time).firmware(r);
          time := time + 1;
        case InternalLoadImage(d) =>
          if d.kind.Bless? {
            status := BlessLoadImage(d, r, ds);
          } else {
            status := FatBinaryLoadImage(d, r, ds);
          }
      }
    }

    /** Bless's walk over the duplicate it makes of the rest of the path. */
    method WalkDuplicate(remaining: Path) returns (ask: bool)
      ensures ask <==> EndsInFirstHardDrive(Parse(remaining, 0))
    {
      DuplicateIsSamePath(remaining);
      var at;
      ask, at := FindBootVolume(Duplicate(remaining));
    }

    /** Bless up to the forwarded call: walk a duplicate of the path, ask for a boot file, roll back on failure. */
    method BlessPath(r: Request) returns (devicePath: Option<Path>)
      modifies this`pool, this`next, this`badFrees, this`time
      ensures r.(path := devicePath) == BlessRequest(old(answers(time)), r)
      ensures old(PoolState()).Valid() ==> PoolState() == BlessWorld(old(answers(time)), r, old(PoolState()))
    {
      var services := answers(time);
      time := time + 1;
      devicePath := r.path;
      if r.bootPolicy && r.source.None? && devicePath.Some? && services.bootPolicyProtocol {
        var located := services.locateDevice(devicePath.value);
        if located.Some? {
          var (device, remaining) := located.value;
          var duplicate := AllocatePool();
          var error := true;
          var ask := WalkDuplicate(remaining);
          if ask {
            var file := services.getBootFile(device);
            if file.Some? {
              error := false;
              devicePath := file;
            }
          }
          if error {
            FreePool(Pointer(duplicate, 0));
            assert duplicate !in old(pool) ==> old(pool) + {duplicate} - {duplicate} == old(pool);
          }
        }
      }
    }

    method BlessLoadImage(d: Driver, r: Request, ghost ds: seq<Driver>) returns (status: int)
      requires PoolState().Valid() && Remembered(ds) && |ds| > 0 && d == ds[|ds| - 1] && d.kind.Bless?
      modifies this`pool, this`next, this`badFrees, this`calls, this`time
      ensures (PoolState(), status) == Dispatch(answers, Kinds(ds), r, old(PoolState()))
      ensures PoolState().Valid()
      decreases |ds|, 0
    {
      var devicePath := BlessPath(r);
      KindsBelow(ds);
      BelowRemembered(ds);
      status := LoadImage(d.mLoadImage.value, r.(path := devicePath), ds[..|ds| - 1]);
    }

    /** FatBinary up to the forwarded call: read the file if no buffer came along. */
    method FatBinaryRead(r: Request) returns (source: Option<Buffer>)
      modifies this`pool, this`next, this`time
      ensures source == FatOriginal(old(answers(time)), r, old(PoolState()))
      ensures PoolState() == FatWorld(old(answers(time)), r, old(PoolState()))
    {
      var services := answers(time);
      time := time + 1;
      source := r.source;
      if source.None? {
        var bytes := services.readFile(r.bootPolicy, r.path);
        if bytes.Some? {
          var block := AllocatePool();
          source := Some(Buffer(Pointer(block, 0), bytes.value));
        }
      }
    }

    method FatBinaryLoadImage(d: Driver, r: Request, ghost ds: seq<Driver>) returns (status: int)
      requires PoolState().Valid() && Remembered(ds) && |ds| > 0 && d == ds[|ds| - 1] && d.kind.FatBinary?
      modifies this`pool, this`next, this`badFrees, this`calls, this`time
      ensures (PoolState(), status) == Dispatch(answers, Kinds(ds), r, old(PoolState()))
      ensures PoolState().Valid()
      decreases |ds|, 0
    {
      var originalBuffer: Option<Pointer> := None;
      var services := answers(time);
      var source := FatBinaryRead(r);
      if source.Some? {
        originalBuffer := Some(source.value.ptr);
        source := Some(Thinned(services, source.value));
      }
      assert r.(source := source) == FatRequest(services, r, old(PoolState()));
      KindsBelow(ds);
      BelowRemembered(ds);
      status := LoadImage(d.mLoadImage.value, r.(source := source), ds[..|ds| - 1]);
      if originalBuffer.Some? {
        FreePool(originalBuffer.value);
      }
    }
  }

  lemma KindsBelow(ds: seq<Driver>)
    requires |ds| > 0
    ensures |Kinds(ds)| == |ds| && Kinds(ds)[|ds| - 1] == ds[|ds| - 1].kind
    ensures Kinds(ds)[..|ds| - 1] == Kinds(ds[..|ds| - 1])
  {
  }

  lemma BelowRemembered(ds: seq<Driver>)
    requires |ds| > 0 && Remembered(ds)
    ensures ds[|ds| - 1].mLoadImage == Some(TopOf(ds[..|ds| - 1]))
    ensures Remembered(ds[..|ds| - 1])
  {
    var below := ds[..|ds| - 1];
    assert RemembersBelow(ds, |ds| - 1);
    forall i | 0 <= i < |below|
      ensures RemembersBelow(below, i)
    {
      assert RemembersBelow(ds, i);
    }
  }

  // ---- installing and removing hooks ----

  /** From the observation at from on, the stored CRC was right whenever the TPL was below TPL_HIGH_LEVEL. */
  predicate CrcSound(observed: seq<(nat, bool)>, from: nat) {
    forall i :: from <= i < |observed| && observed[i].0 < TPL_HIGH_LEVEL ==> observed[i].1
  }

  /** BlessMain and FatBinaryMain. */
  method Install(fw: Firmware, d: Driver, ghost live: seq<Driver>)
    requires fw.Holds(live) && d !in live && fw.tpl <= TPL_HIGH_LEVEL
    modifies fw`loadImage, fw`crc, fw`tpl, fw`observed, d`mLoadImage
    ensures fw.Holds(live + [d]) && fw.tpl == old(fw.tpl)
    ensures |fw.observed| > |old(fw.observed)| && fw.observed[..|old(fw.observed)|] == old(fw.observed)
    ensures CrcSound(fw.observed, |old(fw.observed)|)
  {
    var oldTpl := fw.RaiseTpl(TPL_HIGH_LEVEL);
    d.mLoadImage := Some(fw.loadImage);
    fw.SetLoadImage(InternalLoadImage(d));
    fw.UpdateCrc();
    fw.RestoreTpl(oldTpl);
    forall i | 0 <= i < |live + [d]|
      ensures RemembersBelow(live + [d], i)
    {
      assert i < |live| ==> old(RemembersBelow(live, i));
    }
  }

  /** BlessUnload and FatBinaryUnload, of the driver on top. */
  method Uninstall(fw: Firmware, d: Driver, ghost live: seq<Driver>)
    requires fw.Holds(live) && |live| > 0 && d == live[|live| - 1] && fw.tpl <= TPL_HIGH_LEVEL
    modifies fw`loadImage, fw`crc, fw`tpl, fw`observed, d`mLoadImage
    ensures fw.Holds(live[..|live| - 1]) && fw.tpl == old(fw.tpl)
    ensures d.mLoadImage == if fw.debug then None else old(d.mLoadImage)
    ensures |fw.observed| > |old(fw.observed)| && fw.observed[..|old(fw.observed)|] == old(fw.observed)
    ensures CrcSound(fw.observed, |old(fw.observed)|)
  {
    BelowRemembered(live);
    var oldTpl := fw.RaiseTpl(TPL_HIGH_LEVEL);
    fw.SetLoadImage(d.mLoadImage.value);
    fw.UpdateCrc();
    fw.RestoreTpl(oldTpl);
    if fw.debug {
      d.mLoadImage := None;
    }
    ghost var below := live[..|live| - 1];
    forall i | 0 <= i < |below|
      ensures RemembersBelow(below, i)
    {
      assert old(RemembersBelow(below, i));
    }
  }

  datatype Operation = Load(d: Driver) | Unload(d: Driver)

  /** Drivers are loaded when not live and unloaded last in, first out. */
  predicate Legal(live: seq<Driver>, ops: seq<Operation>)
    decreases |ops|
  {
    ops == [] ||
    match ops[0]
    case Load(d) => d !in live && Legal(live + [d], ops[1..])
    case Unload(d) => |live| > 0 && d == live[|live| - 1] && Legal(live[..|live| - 1], ops[1..])
  }

  /** The live drivers after some operations. */
  function After(live: seq<Driver>, ops: seq<Operation>): seq<Driver>
    requires Legal(live, ops)
    decreases |ops|
  {
    if ops == [] then live
    else match ops[0]
         case Load(d) => After(live + [d], ops[1..])
         case Unload(d) => After(live[..|live| - 1], ops[1..])
  }

  /** Loading any distinct drivers and unloading them in reverse is legal and leaves nothing live. */
  lemma {:induction false} LoadThenUnloadAll(live: seq<Driver>, ds: seq<Driver>)
    requires forall i, j :: 0 <= i < j < |live + ds| ==> (live + ds)[i] != (live + ds)[j]
    ensures Legal(live, Loads(ds) + Unloads(ds)) && After(live, Loads(ds) + Unloads(ds)) == live
    decreases |ds|
  {
    var ops := Loads(ds) + Unloads(ds);
    if ds == [] {
      assert ops == [];
    } else {
      var d, rest := ds[0], ds[1..];
      assert live + ds == (live + [d]) + rest;
      LoadThenUnloadAll(live + [d], rest);
      var inner := Loads(rest) + Unloads(rest);
      assert ops[1..] == inner + [Unload(d)];
      AppendLegal(live + [d], inner, [Unload(d)]);
      assert (live + [d])[..|live + [d]| - 1] == live;
      assert (live + ds)[|live|] == d;
      assert forall i :: 0 <= i < |live| ==> (live + ds)[i] == live[i];
      assert [Unload(d)][1..] == [];
      assert ops[0] == Load(d);
    }
  }

  function Loads(ds: seq<Driver>): seq<Operation> {
    if ds == [] then [] else [Load(ds[0])] + Loads(ds[1..])
  }

  function Unloads(ds: seq<Driver>): seq<Operation> {
    if ds == [] then [] else Unloads(ds[1..]) + [Unload(ds[0])]
  }

  lemma {:induction false} AppendLegal(live: seq<Driver>, ops: seq<Operation>, more: seq<Operation>)
    requires Legal(live, ops) && Legal(After(live, ops), more)
    ensures Legal(live, ops + more) && After(live, ops + more) == After(After(live, ops), more)
    decreases |ops|
  {
    if ops == [] {
      assert ops + more == more;
    } else {
      assert (ops + more)[0] == ops[0] && (ops + more)[1..] == ops[1..] + more;
      match ops[0]
      case Load(d) => AppendLegal(live + [d], ops[1..], more);
      case Unload(d) => AppendLegal(live[..|live| - 1], ops[1..], more);
    }
  }

  /**
   Any number of loads and last-in-first-out unloads of any number of drivers: the table holds the live
   stack, the TPL is back where it was, and at every moment in between the CRC was right below
   TPL_HIGH_LEVEL.  With nothing left live the table is the firmware's own again.
   */
  method Replay(fw: Firmware, ops: seq<Operation>)
    requires fw.Holds([]) && fw.tpl <= TPL_HIGH_LEVEL && Legal([], ops)
    modifies fw`loadImage, fw`crc, fw`tpl, fw`observed, (set i | 0 <= i < |ops| :: ops[i].d)`mLoadImage
    ensures fw.Holds(After([], ops)) && fw.tpl == old(fw.tpl)
    ensures CrcSound(fw.observed, |old(fw.observed)|)
    ensures After([], ops) == [] ==> fw.loadImage == old(fw.loadImage) && fw.crc == old(fw.crc)
  {
    ghost var live: seq<Driver> := [];
    ghost var start := |fw.observed|;
    var i := 0;
    assert ops[i..] == ops;
    while i < |ops|
      invariant 0 <= i <= |ops| && Legal(live, ops[i..]) && After(live, ops[i..]) == After([], ops)
      invariant fw.Holds(live) && fw.tpl == old(fw.tpl)
      invariant start <= |fw.observed| && CrcSound(fw.observed, start)
    {
      ghost var middle := |fw.observed|;
      ghost var before := fw.observed;
      assert ops[i..][0] == ops[i] && ops[i..][1..] == ops[i + 1..];
      match ops[i] {
        case Load(d) =>
          Install(fw, d, live);
          live := live + [d];
        case Unload(d) =>
          Uninstall(fw, d, live);
          live := live[..|live| - 1];
      }
      assert forall j :: 0 <= j < middle ==> fw.observed[j] == before[j];
      i := i + 1;
    }
  }

  /** Following mLoadImage from the table visits every live driver once, newest first, and ends at the firmware. */
  method Follow(fw: Firmware, ghost live: seq<Driver>) returns (visited: seq<Driver>, last: Routine)
    requires fw.Holds(live)
    ensures |visited| == |live| && last == Original
    ensures forall i :: 0 <= i < |live| ==> visited[i] == live[|live| - 1 - i]
  {
    visited := [];
    last := fw.loadImage;
    while last.InternalLoadImage?
      invariant |visited| <= |live| && last == TopOf(live[..|live| - |visited|])
      invariant forall i :: 0 <= i < |visited| ==> visited[i] == live[|live| - 1 - i]
      decreases |live| - |visited|
    {
      ghost var n := |live| - |visited| - 1;
      assert RemembersBelow(live, n);
      visited := visited + [last.driver];
      last := last.driver.mLoadImage.value;
    }
  }
}
