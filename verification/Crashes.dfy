/** Power cuts: after any prefix of an operation's block writes the disk can be mounted again, and shows the
    namespace of before or of after. fs_write is the exception, and exactly when is said here too. */
module Crashes {
  import opened Format
  import opened Bits
  import opened Image
  import opened Change
  import opened Paths
  import opened Ops
  import opened Keep
  import opened Editing
  import opened Writing
  import opened Runs

  /** fs_init: the superblock is tested, and the bitmap is read from block 1. */
  function Init(d: Disk): Option<Fs> { if Headed(d) then Some(Remount(d)) else None }

  function Remount(d: Disk): Fs { Fs(d, At(d, 1).bytes) }

  /** fs_init mounts an image if and only if block 0 begins with the bytes 35 36 30 30 and the size of the image in
      blocks; what it has in memory then is block 1 as it is. */
  lemma InitReads(d: Disk)
    ensures var b := At(d, 0).bytes;
      Init(d).Some? <==> b[0] == 0x35 && b[1] == 0x36 && b[2] == 0x30 && b[3] == 0x30 && FourBytes(b, 4) == |d|
    ensures Init(d).Some? ==> Init(d).value.disk == d && Init(d).value.bitmap == At(d, 1).bytes
  {
    var b := At(d, 0).bytes;
    WordIsFour(b, 0);
    WordIsFour(b, 4);
    MagicBytes(b[0], b[1], b[2], b[3]);
    hide Word, At;
  }

  lemma MagicBytes(b0: nat, b1: nat, b2: nat, b3: nat)
    requires b0 < 256 && b1 < 256 && b2 < 256 && b3 < 256
    ensures b0 + 256 * b1 + 65536 * b2 + 16777216 * b3 == FS_MAGIC <==>
      b0 == 0x35 && b1 == 0x36 && b2 == 0x30 && b3 == 0x30
  {}

  lemma RemountKeeps(d: Disk, C: Cert)
    requires Safe(d, C)
    ensures Init(d) == Some(Remount(d)) && Inv(Remount(d), C) && Clean(Remount(d))
  {
    hide Tree, Bit, Word;
  }

  ghost predicate SameView(d: Disk, e: Disk) { forall q: Path :: Lookup(e, q) == Lookup(d, q) }

  lemma AgreeView(d: Disk, e: Disk, C: Cert)
    requires Safe(d, C) && Agree(d, e, C)
    ensures SameView(d, e) && SameView(e, d)
  {
    hide Bit, Lookup, Agree;
    assert Tree(d, C);
    forall q: Path ensures Lookup(e, q) == Lookup(d, q) { AgreeLookup(d, e, C, q); }
  }

  /** Every operation but write is atomic: cut after k of its block writes, it leaves a disk that mounts into a state
      with the invariant, and a user sees all of the operation or nothing of it. */
  lemma CutIsAtomic(s: Fs, C: Cert, a: Call, k: nat) returns (E: Cert)
    requires Inv(s, C) && Asks(s, a) && !a.WriteCall? && k <= |Do(s, a).writes|
    ensures var e := Apply(s.disk, Do(s, a).writes[..k]);
      Init(e).Some? && Inv(Init(e).value, E) && (SameView(s.disk, e) || SameView(After(s, Do(s, a)).disk, e))
  {
    hide *;
    IsCallable(s, a);
    var o := Do(s, a);
    var e := Apply(s.disk, o.writes[..k]);
    var D, t := CallKeeps(s, C, a);
    InvParts(s, C);
    StageAt(s, C, o, D, t, k);
    AfterIs(s, o);
    E := if k < t then C else D;
    RemountKeeps(e, E);
    if k < t {
      AgreeView(s.disk, e, C);
    } else {
      AgreeView(e, After(s, o).disk, D);
    }
  }

  lemma StageAt(s: Fs, C: Cert, o: Outcome, D: Cert, t: nat, k: nat)
    requires Sound(s, C, o, D, t) && k <= |o.writes|
    ensures var e := Apply(s.disk, o.writes[..k]);
      if k < t then Safe(e, C) && Agree(s.disk, e, C) else Safe(e, D) && Agree(e, Apply(s.disk, o.writes), D)
  {
    hide Safe, Agree, Inv, Clean, Apply;
  }

  // ---- write ----

  /** The one cut that matters: a write that takes new blocks, cut with only the bitmap missing. */
  predicate Torn(s: Fs, a: Call, k: nat)
    requires a.WriteCall?
  {
    var i := TargetOf(s.disk, a.comps);
    && Translate(s.disk, a.comps).Ok? && !DirAt(s.disk, i) && CanWrite(s, i, a.off, |a.data|)
    && Blocks(a.off + |a.data|) > Span(s.disk, i) && k + 1 == |WriteList(s, i, a.data, a.off, a.now)|
  }

  /** A cut write mounts if and only if it is not torn. */
  lemma CutWrite(s: Fs, C: Cert, a: Call, k: nat)
    requires Inv(s, C) && Asks(s, a) && a.WriteCall? && k <= |Do(s, a).writes|
    ensures Mountable(Apply(s.disk, Do(s, a).writes[..k])) <==> !Torn(s, a, k)
  {
    hide *;
    AsksIs(s, a);
    DoIs(s, a);
    var i, r, n := TargetOf(s.disk, a.comps), Target(a.comps), |a.data|;
    InvParts(s, C);
    WriteFileShape(s, a.comps, a.data, a.off, a.now);
    TargetIs(s.disk, a.comps);
    TornIs(s, a, k);
    AllocatesIs(s, a.comps, a.off);
    CanWriteInside(s, i, a.off, n);
    if Allocates(s, a.comps, a.off) {
      BoundedIs(s, a.comps, a.off, n);
      TargetWalks(s.disk, C, a.comps);
      WriteAtShape(s, C, i, a.data, a.off, a.now);
    } else if Translate(s.disk, a.comps).Ok? && !DirAt(s.disk, i) {
      WriteBeyond(s, i, a.data, a.off, a.now);
    }
    if Allocates(s, a.comps, a.off) && CanWrite(s, i, a.off, n) {
      WriteCrash(s, C, i, a.data, a.off, a.now, r, k);
    } else {
      NoCut(s, C, Do(s, a), k);
    }
  }

  lemma TornIs(s: Fs, a: Call, k: nat)
    requires a.WriteCall?
    ensures var i := TargetOf(s.disk, a.comps);
      Torn(s, a, k) <==>
        && Translate(s.disk, a.comps).Ok? && !DirAt(s.disk, i) && CanWrite(s, i, a.off, |a.data|)
        && Blocks(a.off + |a.data|) > Span(s.disk, i) && k + 1 == |WriteList(s, i, a.data, a.off, a.now)|
    ensures forall code :: Err(s, code).writes == []
  {
    hide CanWrite, WriteList, Span, Blocks, Translate, DirAt;
  }

  lemma NoCut(s: Fs, C: Cert, o: Outcome, k: nat)
    requires Inv(s, C) && o.writes == [] && k <= |o.writes|
    ensures Mountable(Apply(s.disk, o.writes[..k]))
  {
    ApplyNone(s.disk);
    InvParts(s, C);
    hide Safe, Tree, Bit;
  }

  // ---- runs with power cuts ----

  /** A call that completes, or a call cut after k block writes, followed by a mount. */
  datatype Event = Whole(call: Call) | Cut(call: Call, k: nat)

  /** The event may happen: the call is one the state allows, and no write is torn. */
  ghost predicate Happens(s: Fs, v: Event) {
    Asks(s, v.call) && (v.Cut? ==> v.k <= |Do(s, v.call).writes| && (v.call.WriteCall? ==> !Torn(s, v.call, v.k)))
  }

  /** The state after an event, if there is one: the mount after a cut might fail. */
  function Next(s: Fs, v: Event): Option<Fs>
    requires Happens(s, v)
  {
    match v
    case Whole(a) => Some(After(s, Do(s, a)))
    case Cut(a, k) => Init(Apply(s.disk, Do(s, a).writes[..k]))
  }

  lemma EventKeeps(s: Fs, C: Cert, v: Event) returns (D: Cert)
    requires Inv(s, C) && Happens(s, v)
    ensures Next(s, v).Some? && Inv(Next(s, v).value, D)
  {
    hide *;
    HappensIs(s, v);
    IsCallable(s, v.call);
    match v
    case Whole(a) =>
      var t;
      D, t := CallKeeps(s, C, a);
      AccountParts(s, C, a, Do(s, a), D);
    case Cut(a, k) =>
      if a.WriteCall? {
        CutWrite(s, C, a, k);
        D := PickCert(Apply(s.disk, Do(s, a).writes[..k]));
        RemountKeeps(Apply(s.disk, Do(s, a).writes[..k]), D);
      } else {
        D := CutIsAtomic(s, C, a, k);
      }
  }

  lemma PickCert(d: Disk) returns (C: Cert)
    requires Mountable(d)
    ensures Safe(d, C)
  {
    hide Safe;
    C :| Safe(d, C);
  }

  lemma HappensIs(s: Fs, v: Event)
    requires Happens(s, v)
    ensures Asks(s, v.call)
    ensures v.Cut? ==> v.k <= |Do(s, v.call).writes| && (v.call.WriteCall? ==> !Torn(s, v.call, v.k))
    ensures Next(s, v) == if v.Whole? then Some(After(s, Do(s, v.call)))
        else Init(Apply(s.disk, Do(s, v.call).writes[..v.k]))
  {
    hide Asks, Do, Torn, Apply, Init;
  }

  /** Every event may happen in the state that the events before it left. */
  ghost predicate Story(s: Fs, vs: seq<Event>)
    decreases |vs|
  {
    vs == [] || (Happens(s, vs[0]) && (Next(s, vs[0]).Some? ==> Story(Next(s, vs[0]).value, vs[1..])))
  }

  ghost function Ends(s: Fs, vs: seq<Event>): Option<Fs>
    requires Story(s, vs)
    decreases |vs|
  {
    if vs == [] then Some(s)
    else if Next(s, vs[0]).None? then None
    else Ends(Next(s, vs[0]).value, vs[1..])
  }

  /** In every run with power cuts in between, no write torn, every mount succeeds, and the invariant holds at the
      end. */
  lemma {:induction false} StoryKeeps(s: Fs, C: Cert, vs: seq<Event>) returns (D: Cert)
    requires Inv(s, C) && Story(s, vs)
    ensures Ends(s, vs).Some? && Inv(Ends(s, vs).value, D)
    decreases |vs|
  {
    hide Inv, Happens, Next;
    D := C;
    if vs != [] {
      D := EventKeeps(s, C, vs[0]);
      D := StoryKeeps(Next(s, vs[0]).value, D, vs[1..]);
    }
  }
}
