/**
 Streaming capture of a request body (src/bodycap.c). The memory sink is modelled exactly; the
 file sink is a byte log that the disk may stop accepting at any point.
 */
module BodyCapture {
  import opened Words

  datatype Mode = Discard | File | Memory

  /**
   What the file system does with one capture: whether the file opens, how many bytes the disk takes, whether
   it is renamed.
   */
  datatype Fate = Fate(opens: bool, capacity: nat, renamed: bool)

  /**
   What the sink holds of the bytes fed: the first ones that fit memory or that the disk took, and none when
   discarding.
   */
  function Kept(mode: Mode, fed: seq<Byte>, fate: Fate, room: nat): seq<Byte> {
    match mode
    case Memory => fed[..Min(|fed|, room)]
    case File => if fate.opens then fed[..Min(|fed|, fate.capacity)] else []
    case Discard => []
  }

  predicate Failed(mode: Mode, fed: seq<Byte>, fate: Fate, room: nat) {
    match mode
    case Memory => |fed| > room
    case File => !fate.opens || |fed| > fate.capacity
    case Discard => false
  }

  /**
   The sink holds a prefix of the bytes fed, and a capture has failed exactly when that is not all of them or
   its file did not open.
   */
  lemma KeptAll(mode: Mode, fed: seq<Byte>, fate: Fate, room: nat)
    requires mode != Discard
    ensures Kept(mode, fed, fate, room) <= fed
    ensures Failed(mode, fed, fate, room) <==> Kept(mode, fed, fate, room) != fed || (mode == File && !fate.opens)
  {
    assert fed[..|fed|] == fed;
  }

  class Capture {
    var mode: Mode
    var remaining: nat
    var failed: bool
    const mem: array<Byte>
    var memLen: nat
    var written: seq<Byte>
    var fate: Fate
    ghost var fed: seq<Byte>  // every byte fed so far
    ghost var declared: nat

    /** Whatever the pieces, the sink holds what its mode promises of the bytes fed so far. */
    ghost predicate Valid()
      reads this, mem
    {
      && declared == remaining + |fed|
      && memLen <= mem.Length
      && (failed <==> Failed(mode, fed, fate, mem.Length))
      && mem[..memLen] == (if mode == Memory then Kept(mode, fed, fate, mem.Length) else [])
      && written == (if mode == File then Kept(mode, fed, fate, mem.Length) else [])
    }

    constructor (room: nat)
      ensures Valid() && fresh(mem) && mem.Length == room && declared == 0
    {
      mem := new Byte[room];
      mode, remaining, failed, memLen, written, fate := Discard, 0, false, 0, [], Fate(true, 0, true);
      fed, declared := [], 0;
    }

    /** A negative length counts as zero; a file that does not open fails the capture at once. */
    method Begin(newMode: Mode, declaredLength: int, newFate: Fate)
      modifies this
      ensures Valid()
      ensures mode == newMode && fed == [] && declared == Max(declaredLength, 0) == remaining && fate == newFate
    {
      mode, fate := newMode, newFate;
      remaining := if declaredLength < 0 then 0 else declaredLength;
      failed := false;
      memLen, written := 0, [];
      fed, declared := [], remaining;
      if newMode == File && !newFate.opens { failed := true; }
      assert mem[..0] == [];
    }

    /** Takes at most what remains, and always advances by it. */
    method Feed(data: seq<Byte>) returns (take: nat)
      requires Valid()
      modifies this, mem
      ensures Valid()
      ensures take == Min(old(remaining), |data|)
      ensures fed == old(fed) + data[..take] && remaining == old(remaining) - take
      ensures mode == old(mode) && declared == old(declared) && fate == old(fate)
    {
      take := if remaining < |data| then remaining else |data|;
      if take > 0 && !failed {
        if mode == File {
          WriteToDisk(data[..take]);
        } else if mode == Memory {
          StoreInMemory(data[..take]);
        }
      } else if failed {
        FailedKeeps(mode, fed, data[..take], fate, mem.Length);
      } else {
        assert fed + data[..take] == fed;
      }
      fed := fed + data[..take];
      remaining := remaining - take;
    }

    /** Writes until the disk stops taking bytes, which fails the capture. */
    method WriteToDisk(data: seq<Byte>)
      requires Valid() && mode == File && !failed
      modifies this`written, this`failed
      ensures written == Kept(mode, fed + data, fate, mem.Length)
      ensures failed <==> Failed(mode, fed + data, fate, mem.Length)
    {
      KeptAll(mode, fed, fate, mem.Length);
      var accepted := Min(|data|, fate.capacity - |written|);
      written := written + data[..accepted];
      if accepted < |data| { failed := true; }
    }

    /** Copies what fits and marks the capture failed if something did not. */
    method StoreInMemory(data: seq<Byte>)
      requires Valid() && mode == Memory && !failed
      modifies this`memLen, this`failed, mem
      ensures memLen <= mem.Length && mem[..memLen] == Kept(mode, fed + data, fate, mem.Length)
      ensures failed <==> Failed(mode, fed + data, fate, mem.Length)
    {
      KeptAll(mode, fed, fate, mem.Length);
      var fit := Min(|data|, mem.Length - memLen);
      forall i | 0 <= i < fit { mem[memLen + i] := data[i]; }
      if memLen + |data| > mem.Length { failed := true; }
      memLen := memLen + fit;
    }

    method Done() returns (done: bool)
      requires Valid()
      ensures done <==> |fed| == declared
    {
      done := remaining == 0;
    }

    /** Success exactly when the whole body arrived and the sink kept all of it; and what the sink holds. */
    method Finish() returns (ok: bool, kept: seq<Byte>)
      requires Valid()
      ensures ok <==> |fed| == declared && !Failed(mode, fed, fate, mem.Length) && (mode == File ==> fate.renamed)
      ensures kept == Kept(mode, fed, fate, mem.Length)
    {
      ok := remaining == 0 && !failed && (mode == File ==> fate.renamed);
      kept := if mode == Memory then mem[..memLen] else written;
    }
  }

  /** A sink that has failed holds what it held, whatever else is fed. */
  lemma FailedKeeps(mode: Mode, fed: seq<Byte>, data: seq<Byte>, fate: Fate, room: nat)
    requires Failed(mode, fed, fate, room)
    ensures Failed(mode, fed + data, fate, room)
    ensures Kept(mode, fed + data, fate, room) == Kept(mode, fed, fate, room)
  {
  }
}
