/**
 Device paths as bytes: nodes of a type, a sub-type and a 16-bit little-endian length that counts the 4-byte
 header (section 10.3 of the UEFI Specification), closed by an end-entire node; and the walk Bless makes.
 */
module DevicePath {
  import opened Words

  const END_DEVICE_PATH_TYPE: Byte := 0x7F
  const END_ENTIRE_SUBTYPE: Byte := 0xFF
  const MEDIA_DEVICE_PATH: Byte := 0x04
  const MEDIA_HARDDRIVE_DP: Byte := 0x01
  const END_NODE: seq<Byte> := [0x7F, 0xFF, 4, 0]

  // ---- the bytes, as the EDK II accessors read them ----

  predicate HeaderFits(b: seq<Byte>, at: nat) {
    at + 4 <= |b|
  }

  predicate IsEnd(b: seq<Byte>, at: nat)
    requires HeaderFits(b, at)
  {
    b[at] == END_DEVICE_PATH_TYPE && b[at + 1] == END_ENTIRE_SUBTYPE
  }

  predicate IsHardDriveAt(b: seq<Byte>, at: nat)
    requires HeaderFits(b, at)
  {
    b[at] == MEDIA_DEVICE_PATH && b[at + 1] == MEDIA_HARDDRIVE_DP
  }

  function NodeLength(b: seq<Byte>, at: nat): nat
    requires HeaderFits(b, at)
  {
    (b[at + 2] as int) + 256 * (b[at + 3] as int)
  }

  /** Every node up to the end-entire node has a length of at least 4 and lies in the buffer. */
  predicate WellFormed(b: seq<Byte>, at: nat)
    decreases |b| - at
  {
    && HeaderFits(b, at)
    && (IsEnd(b, at) || (NodeLength(b, at) >= 4 && WellFormed(b, at + NodeLength(b, at))))
  }

  // ---- the nodes ----

  datatype Node = Node(kind: Byte, subKind: Byte, data: seq<Byte>)

  predicate IsHardDrive(n: Node) {
    n.kind == MEDIA_DEVICE_PATH && n.subKind == MEDIA_HARDDRIVE_DP
  }

  predicate NodeOk(n: Node) {
    |n.data| + 4 < 0x10000 && !(n.kind == END_DEVICE_PATH_TYPE && n.subKind == END_ENTIRE_SUBTYPE)
  }

  function EncodeNode(n: Node): seq<Byte>
    requires NodeOk(n)
  {
    [n.kind, n.subKind, (|n.data| + 4) % 256, (|n.data| + 4) / 256] + n.data
  }

  function EncodeNodes(ns: seq<Node>): seq<Byte>
    requires forall n :: n in ns ==> NodeOk(n)
  {
    if ns == [] then [] else EncodeNode(ns[0]) + EncodeNodes(ns[1..])
  }

  function Encode(ns: seq<Node>): seq<Byte>
    requires forall n :: n in ns ==> NodeOk(n)
  {
    EncodeNodes(ns) + END_NODE
  }

  function Parse(b: seq<Byte>, at: nat): seq<Node>
    requires WellFormed(b, at)
    decreases |b| - at
  {
    if IsEnd(b, at) then []
    else
      var next := at + NodeLength(b, at);
      WellFormedBounds(b, next);
      [Node(b[at], b[at + 1], b[at + 4..next])] + Parse(b, next)
  }

  lemma {:induction false} WellFormedBounds(b: seq<Byte>, at: nat)
    requires WellFormed(b, at)
    ensures at + 4 <= |b|
  {
  }

  /** Offset of the end-entire node. */
  function EndOffset(b: seq<Byte>, at: nat): (e: nat)
    requires WellFormed(b, at)
    ensures at <= e && HeaderFits(b, e) && IsEnd(b, e)
    decreases |b| - at
  {
    if IsEnd(b, at) then at else EndOffset(b, at + NodeLength(b, at))
  }

  /** The accessors read an encoded node back. */
  lemma HeadParses(b: seq<Byte>, at: nat, n: Node, rest: seq<Byte>)
    requires at <= |b| && NodeOk(n) && b[at..] == EncodeNode(n) + rest
    ensures HeaderFits(b, at) && !IsEnd(b, at) && NodeLength(b, at) == 4 + |n.data|
    ensures at + 4 + |n.data| <= |b| && b[at + 4 + |n.data|..] == rest
    ensures b[at] == n.kind && b[at + 1] == n.subKind && b[at + 4..at + 4 + |n.data|] == n.data
  {
    var head, suffix := EncodeNode(n), b[at..];
    assert |suffix| == |head| + |rest|;
    assert forall i :: 0 <= i < |head| ==> suffix[i] == head[i];
    assert forall i :: 0 <= i < |suffix| ==> b[at + i] == suffix[i];
    assert b[at + 0] == head[0] && b[at + 1] == head[1] && b[at + 2] == head[2] && b[at + 3] == head[3];
    assert suffix[4..4 + |n.data|] == n.data;
    assert suffix[|head|..] == rest;
  }

  lemma {:induction false} ParseCons(b: seq<Byte>, at: nat, n: Node, tail: seq<Node>)
    requires HeaderFits(b, at) && !IsEnd(b, at) && NodeLength(b, at) == 4 + |n.data|
    requires at + 4 + |n.data| <= |b|
    requires WellFormed(b, at + 4 + |n.data|) && Parse(b, at + 4 + |n.data|) == tail
    requires b[at] == n.kind && b[at + 1] == n.subKind && b[at + 4..at + 4 + |n.data|] == n.data
    ensures WellFormed(b, at) && Parse(b, at) == [n] + tail
  {
  }

  lemma {:induction false} EmptyParses(b: seq<Byte>, at: nat)
    requires at <= |b| && b[at..] == END_NODE
    ensures WellFormed(b, at) && Parse(b, at) == []
  {
    assert b[at] == b[at..][0] && b[at + 1] == b[at..][1];
  }

  lemma {:induction false} EncodeCons(ns: seq<Node>)
    requires ns != [] && forall n :: n in ns ==> NodeOk(n)
    ensures Encode(ns) == EncodeNode(ns[0]) + Encode(ns[1..])
  {
  }

  lemma {:induction false} HeadOfEncoding(b: seq<Byte>, at: nat, ns: seq<Node>)
    requires ns != [] && forall n :: n in ns ==> NodeOk(n)
    requires at <= |b| && b[at..] == Encode(ns)
    ensures HeaderFits(b, at) && !IsEnd(b, at) && NodeLength(b, at) == 4 + |ns[0].data|
    ensures b[at] == ns[0].kind && b[at + 1] == ns[0].subKind
    ensures var next := at + 4 + |ns[0].data|;
      next <= |b| && b[at + 4..next] == ns[0].data && b[next..] == Encode(ns[1..])
  {
    EncodeCons(ns);
    HeadParses(b, at, ns[0], Encode(ns[1..]));
  }

  /** Parsing undoes encoding, wherever in a buffer the encoding starts. */
  lemma {:induction false} ParseEncode(b: seq<Byte>, at: nat, ns: seq<Node>)
    requires forall n :: n in ns ==> NodeOk(n)
    requires at <= |b| && b[at..] == Encode(ns)
    ensures WellFormed(b, at) && Parse(b, at) == ns
    decreases |ns|
  {
    if ns == [] {
      EmptyParses(b, at);
    } else {
      var n, rest := ns[0], ns[1..];
      HeadOfEncoding(b, at, ns);
      assert ns == [n] + rest;
      var next := at + 4 + |n.data|;
      assert WellFormed(b, next) && Parse(b, next) == rest by {
        ParseEncode(b, next, rest);
      }
      ParseCons(b, at, n, rest);
    }
  }

  /** Encoding undoes parsing: the nodes give back exactly the bytes in front of the end-entire node. */
  lemma {:induction false} EncodeParse(b: seq<Byte>, at: nat)
    requires WellFormed(b, at)
    ensures forall n :: n in Parse(b, at) ==> NodeOk(n)
    ensures EncodeNodes(Parse(b, at)) == b[at..EndOffset(b, at)]
    decreases |b| - at
  {
    if !IsEnd(b, at) {
      var next := at + NodeLength(b, at);
      EncodeParse(b, next);
      HeadEncodes(b, at);
      var n, rest := Node(b[at], b[at + 1], b[at + 4..next]), Parse(b, next);
      assert Parse(b, at) == [n] + rest;
      NodesCons(n, rest);
      assert b[at..next] + b[next..EndOffset(b, next)] == b[at..EndOffset(b, at)];
    }
  }

  lemma {:induction false} HeadEncodes(b: seq<Byte>, at: nat)
    requires WellFormed(b, at) && !IsEnd(b, at)
    ensures var next := at + NodeLength(b, at);
      next <= |b| && var n := Node(b[at], b[at + 1], b[at + 4..next]); NodeOk(n) && EncodeNode(n) == b[at..next]
  {
    WellFormedBounds(b, at + NodeLength(b, at));
  }

  lemma NodesCons(n: Node, rest: seq<Node>)
    requires NodeOk(n) && forall m :: m in rest ==> NodeOk(m)
    ensures forall m :: m in [n] + rest ==> NodeOk(m)
    ensures EncodeNodes([n] + rest) == EncodeNode(n) + EncodeNodes(rest)
  {
    assert ([n] + rest)[1..] == rest;
  }

  /** The path DuplicateDevicePath copies: everything up to and with the end-entire node. */
  function Duplicate(b: seq<Byte>): (d: seq<Byte>)
    requires WellFormed(b, 0)
    ensures |d| == EndOffset(b, 0) + 4
  {
    b[..EndOffset(b, 0) + 4]
  }

  /** The duplicate is a path of the same nodes, and nothing follows its end-entire node. */
  lemma {:induction false} DuplicateIsSamePath(b: seq<Byte>)
    requires WellFormed(b, 0)
    ensures WellFormed(Duplicate(b), 0) && Parse(Duplicate(b), 0) == Parse(b, 0)
    ensures EndOffset(Duplicate(b), 0) == EndOffset(b, 0) == |Duplicate(b)| - 4
  {
    SuffixSurvives(b, Duplicate(b), 0);
  }

  lemma {:induction false} SuffixSurvives(b: seq<Byte>, d: seq<Byte>, at: nat)
    requires WellFormed(b, at) && |d| == EndOffset(b, at) + 4
    requires forall i :: 0 <= i < |d| ==> d[i] == b[i]
    ensures WellFormed(d, at) && Parse(d, at) == Parse(b, at) && EndOffset(d, at) == EndOffset(b, at)
    decreases |b| - at
  {
    if !IsEnd(b, at) {
      var next := at + NodeLength(b, at);
      SuffixSurvives(b, d, next);
      assert NodeLength(d, at) == NodeLength(b, at) && IsEnd(d, at) == IsEnd(b, at);
      assert d[at + 4..next] == b[at + 4..next];
    }
  }

  // ---- the walk ----

  /** What the walk is for: the first hard-drive node is the last node of the path. */
  ghost predicate EndsInFirstHardDrive(ns: seq<Node>) {
    && |ns| > 0
    && IsHardDrive(ns[|ns| - 1])
    && forall i :: 0 <= i < |ns| - 1 ==> !IsHardDrive(ns[i])
  }

  /** The first hard-drive node decides: what counts is whether anything follows it. */
  lemma FirstHardDriveDecides(seen: seq<Node>, n: Node, tail: seq<Node>)
    requires IsHardDrive(n) && forall i :: 0 <= i < |seen| ==> !IsHardDrive(seen[i])
    ensures EndsInFirstHardDrive(seen + ([n] + tail)) <==> tail == []
  {
    var ns := seen + ([n] + tail);
    assert ns[|seen|] == n;
    assert forall i :: 0 <= i < |seen| ==> ns[i] == seen[i];
  }

  lemma {:induction false} HardDriveFound(b: seq<Byte>, at: nat, seen: seq<Node>)
    requires WellFormed(b, 0) && WellFormed(b, at) && !IsEnd(b, at) && IsHardDriveAt(b, at)
    requires Parse(b, 0) == seen + Parse(b, at) && forall i :: 0 <= i < |seen| ==> !IsHardDrive(seen[i])
    ensures HeaderFits(b, at + NodeLength(b, at))
    ensures EndsInFirstHardDrive(Parse(b, 0)) <==> IsEnd(b, at + NodeLength(b, at))
  {
    FirstHardDriveDecides(seen, Parse(b, at)[0], Parse(b, at + NodeLength(b, at)));
  }

  lemma {:induction false} NodePassed(b: seq<Byte>, at: nat, seen: seq<Node>) returns (seen': seq<Node>)
    requires WellFormed(b, 0) && WellFormed(b, at) && !IsEnd(b, at) && !IsHardDriveAt(b, at)
    requires Parse(b, 0) == seen + Parse(b, at) && forall i :: 0 <= i < |seen| ==> !IsHardDrive(seen[i])
    ensures Parse(b, 0) == seen' + Parse(b, at + NodeLength(b, at))
    ensures forall i :: 0 <= i < |seen'| ==> !IsHardDrive(seen'[i])
  {
    var n, tail := Parse(b, at)[0], Parse(b, at + NodeLength(b, at));
    assert seen + ([n] + tail) == (seen + [n]) + tail;
    seen' := seen + [n];
  }

  /** The loop of Bless: whether it asks for a boot file, and where its pointer then stands. */
  method FindBootVolume(b: seq<Byte>) returns (ask: bool, at: nat)
    requires WellFormed(b, 0)
    ensures ask <==> EndsInFirstHardDrive(Parse(b, 0))
    ensures ask ==> at == EndOffset(b, 0)
  {
    at := 0;
    ask := false;
    ghost var seen: seq<Node> := [];
    while !IsEnd(b, at)
      invariant WellFormed(b, at) && !ask
      invariant Parse(b, 0) == seen + Parse(b, at) && EndOffset(b, 0) == EndOffset(b, at)
      invariant forall i :: 0 <= i < |seen| ==> !IsHardDrive(seen[i])
      decreases |b| - at
    {
      WellFormedBounds(b, at + NodeLength(b, at));
      if IsHardDriveAt(b, at) {
        HardDriveFound(b, at, seen);
        at := at + NodeLength(b, at);
        if IsEnd(b, at) {
          ask := true;
        }
        return;
      }
      seen := NodePassed(b, at, seen);
      at := at + NodeLength(b, at);
    }
    assert Parse(b, 0) == seen;
  }

  /** In bytes: one node of any type, then a hard-drive node, type 4 and sub-type 1, before the end-entire node. */
  lemma {:induction false} HardDriveBytes(t: Byte, s: Byte, lo: Byte, hi: Byte, data: seq<Byte>, b: seq<Byte>)
    requires lo + 256 * (hi as int) == 4 + |data| && !(t == 0x7F && s == 0xFF)
    requires b == [t, s, lo, hi] + data + [4, 1, 4, 0, 0x7F, 0xFF, 4, 0]
    ensures WellFormed(b, 0) && EndOffset(b, 0) == |b| - 4
    ensures EndsInFirstHardDrive(Parse(b, 0)) <==> !(t == 4 && s == 1)
  {
    var first, second := Node(t, s, data), Node(4, 1, []);
    HardDriveEncodes(first, second, b);
    ParseEncode(b, 0, [first, second]);
    LastNodeEnds(b, |b| - 8);
  }

  lemma {:induction false} HardDriveEncodes(first: Node, second: Node, b: seq<Byte>)
    requires NodeOk(first) && second == Node(4, 1, [])
    requires b == EncodeNode(first) + [4, 1, 4, 0, 0x7F, 0xFF, 4, 0]
    ensures b[0..] == Encode([first, second])
  {
    NodesCons(second, []);
    NodesCons(first, [second]);
    assert [second] + [] == [second] && [first] + [second] == [first, second];
    assert EncodeNode(second) == [4, 1, 4, 0];
    assert EncodeNodes([]) == [];
  }

  lemma {:induction false} LastNodeEnds(b: seq<Byte>, at: nat)
    requires at > 0 && |b| == at + 8 && b[at..] == [4, 1, 4, 0, 0x7F, 0xFF, 4, 0]
    requires WellFormed(b, 0) && !IsEnd(b, 0) && NodeLength(b, 0) == at
    ensures EndOffset(b, 0) == at + 4
  {
    assert b[at] == b[at..][0] && b[at + 1] == b[at..][1] && b[at + 2] == b[at..][2] && b[at + 3] == b[at..][3];
    assert b[at + 4] == b[at..][4] && b[at + 5] == b[at..][5];
    assert EndOffset(b, 0) == EndOffset(b, at) == EndOffset(b, at + 4);
  }

  datatype Walk = Asks(at: nat) | Leaves | ReadsPastBuffer | StillWalking

  /** The same loop on arbitrary bytes, for at most n iterations. */
  function WalkFor(b: seq<Byte>, at: nat, n: nat): Walk
    decreases n
  {
    if n == 0 then StillWalking
    else if !HeaderFits(b, at) then ReadsPastBuffer
    else if IsEnd(b, at) then Leaves
    else
      var next := at + NodeLength(b, at);
      if !IsHardDriveAt(b, at) then WalkFor(b, next, n - 1)
      else if !HeaderFits(b, next) then ReadsPastBuffer
      else if IsEnd(b, next) then Asks(next)
      else Leaves
  }

  /** The walk meets a node of length zero before an end-entire or hard-drive node. */
  predicate MeetsZeroLength(b: seq<Byte>, at: nat)
    decreases |b| - at
  {
    && HeaderFits(b, at) && !IsEnd(b, at) && !IsHardDriveAt(b, at)
    && (NodeLength(b, at) == 0 || MeetsZeroLength(b, at + NodeLength(b, at)))
  }

  /** On arbitrary bytes the loop runs forever exactly when it meets a node of length zero. */
  lemma {:induction false} WalkDivergesExactlyOnZeroLength(b: seq<Byte>, at: nat)
    ensures (forall n: nat :: WalkFor(b, at, n) == StillWalking) <==> MeetsZeroLength(b, at)
  {
    if MeetsZeroLength(b, at) {
      forall n: nat
        ensures WalkFor(b, at, n) == StillWalking
      {
        ZeroLengthDiverges(b, at, n);
      }
    } else {
      var n := WalkEnds(b, at);
    }
  }

  /** On a well-formed path and given enough iterations the loop asks at the end-entire node, or leaves. */
  lemma WalkDecides(b: seq<Byte>, n: nat)
    requires WellFormed(b, 0) && n > |b|
    ensures WalkFor(b, 0, n) == if EndsInFirstHardDrive(Parse(b, 0)) then Asks(EndOffset(b, 0)) else Leaves
  {
    WalkDecidesFrom(b, 0, n, []);
  }

  lemma {:induction false} WalkDecidesFrom(b: seq<Byte>, at: nat, n: nat, seen: seq<Node>)
    requires WellFormed(b, 0) && WellFormed(b, at) && n > |b| - at && EndOffset(b, 0) == EndOffset(b, at)
    requires Parse(b, 0) == seen + Parse(b, at) && forall i :: 0 <= i < |seen| ==> !IsHardDrive(seen[i])
    ensures WalkFor(b, at, n) == if EndsInFirstHardDrive(Parse(b, 0)) then Asks(EndOffset(b, 0)) else Leaves
    decreases n
  {
    if IsEnd(b, at) {
      assert Parse(b, 0) == seen;
    } else {
      WellFormedBounds(b, at + NodeLength(b, at));
      if IsHardDriveAt(b, at) {
        HardDriveFound(b, at, seen);
      } else {
        var seen' := NodePassed(b, at, seen);
        WalkDecidesFrom(b, at + NodeLength(b, at), n - 1, seen');
      }
    }
  }

  /** Four bytes suffice for the loop by itself: a node of type 1, sub-type 1 and length zero, which is no path. */
  lemma {:induction false} FourBytesDiverge(n: nat)
    ensures WalkFor([1, 1, 0, 0], 0, n) == StillWalking
  {
    ZeroLengthDiverges([1, 1, 0, 0], 0, n);
  }

  lemma {:induction false} ZeroLengthDiverges(b: seq<Byte>, at: nat, n: nat)
    requires MeetsZeroLength(b, at)
    ensures WalkFor(b, at, n) == StillWalking
    decreases n
  {
    if n > 0 {
      ZeroLengthDiverges(b, at + NodeLength(b, at), n - 1);
    }
  }

  lemma {:induction false} WalkEnds(b: seq<Byte>, at: nat) returns (n: nat)
    requires !MeetsZeroLength(b, at)
    ensures WalkFor(b, at, n) != StillWalking
    decreases |b| - at
  {
    n := 1;
    if HeaderFits(b, at) && !IsEnd(b, at) && !IsHardDriveAt(b, at) {
      var m := WalkEnds(b, at + NodeLength(b, at));
      n := m + 1;
    }
  }
}
