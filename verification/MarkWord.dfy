/** The 64-bit mark word: state predicates, fields and encoders. */
module MarkWord {

  type Mark = bv64

  // lock patterns: 0 lightweight, 1 unlocked, 2 monitor, 3 marked, 5 (three bits) biased
  predicate IsLocked(v: Mark) { v & 0x3 != 1 }
  predicate IsUnlocked(v: Mark) { v & 0x7 == 1 }
  predicate IsMarked(v: Mark) { v & 0x3 == 3 }
  predicate IsBeingInflated(v: Mark) { v == 0 }
  predicate HasBiasPattern(v: Mark) { v & 0x7 == 5 }
  predicate IsLightweightLocked(v: Mark) { v & 0x3 == 0 }
  predicate IsHeavyweightLocked(v: Mark) { v & 0x3 == 0x2 }

  function Hash(v: Mark): bv64 { (v >> 8) & 0x7FFF_FFFF }
  function Age(v: Mark): bv64 { (v >> 3) & 0xF }

  function HeavyweightLocked(monitor: bv64): Mark { monitor | 0x2 }

  /** `age` and `epoch` are the arguments after their conversion to `uintptr_t`. */
  function Biased(thread: bv64, age: bv64, epoch: bv64): Mark
  {
    thread | ((epoch << 8) | (age << 3) | 5)
  }

  function WithHash(m: Mark, hash: bv64): Mark
  {
    (m & !(0x7FFF_FFFF << 8)) | ((hash & 0x7FFF_FFFF) << 8)
  }

  /** The two epoch bits of the layout given with `markWord_biased`; the code has no reader for them. */
  function Epoch(v: Mark): bv64 { (v >> 8) & 0x3 }

  datatype LockState = Unlocked | BiasedLock | Lightweight | Heavyweight | GcMarked

  /** What each of the five predicates claims. */
  predicate InState(v: Mark, s: LockState)
  {
    match s
    case Unlocked => IsUnlocked(v)
    case BiasedLock => HasBiasPattern(v)
    case Lightweight => IsLightweightLocked(v)
    case Heavyweight => IsHeavyweightLocked(v)
    case GcMarked => IsMarked(v)
  }

  function StateOf(v: Mark): LockState
  {
    if v & 0x3 == 0 then Lightweight
    else if v & 0x3 == 2 then Heavyweight
    else if v & 0x3 == 3 then GcMarked
    else if v & 0x4 == 0 then Unlocked
    else BiasedLock
  }

  /** Every mark word is in exactly one of the five states, and `is_locked` is the last three of them. */
  lemma ExactlyOneState(v: Mark)
    ensures InState(v, StateOf(v))
    ensures forall s: LockState :: InState(v, s) ==> s == StateOf(v)
    ensures IsLocked(v) <==> StateOf(v) in {Lightweight, Heavyweight, GcMarked}
    ensures IsBeingInflated(v) ==> StateOf(v) == Lightweight
  {
    assert v & 0x7 == 1 <==> v & 0x3 == 1 && v & 0x4 == 0;
    assert v & 0x7 == 5 <==> v & 0x3 == 1 && v & 0x4 != 0;
    assert v & 0x3 == 0 || v & 0x3 == 1 || v & 0x3 == 2 || v & 0x3 == 3;
    forall s: LockState | InState(v, s) ensures s == StateOf(v) {
      match s
      case Unlocked =>
      case BiasedLock =>
      case Lightweight =>
      case Heavyweight =>
      case GcMarked =>
    }
  }

  // Facts about one masked store, on bare bits.

  lemma StoreRead(m: bv64, h: bv64)
    ensures (((m & !(0x7FFF_FFFF << 8)) | ((h & 0x7FFF_FFFF) << 8)) >> 8) & 0x7FFF_FFFF == h & 0x7FFF_FFFF
  {}

  lemma StoreStore(m: bv64, g: bv64, h: bv64)
    ensures (((m & !(0x7FFF_FFFF << 8)) | ((g & 0x7FFF_FFFF) << 8)) & !(0x7FFF_FFFF << 8)) | ((h & 0x7FFF_FFFF) << 8)
         == (m & !(0x7FFF_FFFF << 8)) | ((h & 0x7FFF_FFFF) << 8)
  {}

  lemma StoreBack(m: bv64)
    ensures (m & !(0x7FFF_FFFF << 8)) | ((((m >> 8) & 0x7FFF_FFFF) & 0x7FFF_FFFF) << 8) == m
  {}

  lemma StoreRest(m: bv64, h: bv64, w: bv64)
    requires w == (m & !(0x7FFF_FFFF << 8)) | ((h & 0x7FFF_FFFF) << 8)
    ensures w & 0xFF == m & 0xFF && w >> 39 == m >> 39
  {}

  lemma LowByte(w: bv64, m: bv64)
    requires w & 0xFF == m & 0xFF
    ensures w & 0x3 == m & 0x3 && w & 0x4 == m & 0x4 && (w >> 3) & 0xF == (m >> 3) & 0xF
  {}

  /** Setting a hash reads back its low 31 bits, replaces any earlier hash, and writing the hash that is
      already there changes nothing. */
  lemma WithHashRoundTrip(m: Mark, h: bv64, earlier: bv64)
    ensures Hash(WithHash(m, h)) == h & 0x7FFF_FFFF
    ensures WithHash(WithHash(m, earlier), h) == WithHash(m, h)
    ensures WithHash(m, Hash(m)) == m
  {
    StoreRead(m, h);
    StoreStore(m, earlier, h);
    StoreBack(m);
  }

  /** Setting a hash keeps the state, the age and every bit outside the hash field. */
  lemma WithHashKeepsRest(m: Mark, h: bv64)
    ensures StateOf(WithHash(m, h)) == StateOf(m) && Age(WithHash(m, h)) == Age(m)
    ensures WithHash(m, h) & 0xFF == m & 0xFF && WithHash(m, h) >> 39 == m >> 39
  {
    StoreRest(m, h, WithHash(m, h));
    LowByte(WithHash(m, h), m);
  }

  /** Exactly which words a monitor address turns into a heavyweight lock, and when the address comes back. */
  lemma HeavyweightRoundTrip(monitor: bv64)
    ensures IsHeavyweightLocked(HeavyweightLocked(monitor)) <==> monitor & 0x1 == 0
    ensures HeavyweightLocked(monitor) & !0x3 == monitor <==> monitor & 0x3 == 0
  {
    var v := HeavyweightLocked(monitor);
    assert v & 0x3 == (monitor & 0x1) | 0x2;
  }

  /** The bias pattern survives exactly when bit 1 of the thread address is clear. */
  lemma BiasedPattern(thread: bv64, age: bv64, epoch: bv64)
    ensures HasBiasPattern(Biased(thread, age, epoch)) <==> thread & 0x2 == 0
  {
    assert Biased(thread, age, epoch) & 0x7 == (thread & 0x7) | 0x5;
  }

  /** The age survives exactly when it fits its four bits and the thread address adds no bit to them. */
  lemma BiasedAge(thread: bv64, age: bv64, epoch: bv64)
    ensures Age(Biased(thread, age, epoch)) == age <==> age < 16 && Age(thread) & !age == 0
  {
    assert Age(Biased(thread, age, epoch)) == Age(thread) | (age & 0xF);
    assert age & 0xF == age <==> age < 16;
  }

  /** With a four-bit age, the epoch survives exactly when it fits its two bits and the thread address
      adds no bit to them. */
  lemma BiasedEpoch(thread: bv64, age: bv64, epoch: bv64)
    requires age < 16
    ensures Epoch(Biased(thread, age, epoch)) == epoch <==> epoch < 4 && Epoch(thread) & !epoch == 0
  {
    assert Epoch(Biased(thread, age, epoch)) == Epoch(thread) | (epoch & 0x3);
    assert epoch & 0x3 == epoch <==> epoch < 4;
  }

  predicate BiasArguments(thread: bv64, age: bv64, epoch: bv64)
  {
    thread & 0x3FF == 0 && age < 16 && epoch < 4
  }

  /** With ten zero low bits in the thread address and arguments that fit their fields,
      the mark word determines thread, age and epoch. */
  lemma BiasedInjective(t1: bv64, a1: bv64, e1: bv64, t2: bv64, a2: bv64, e2: bv64)
    requires BiasArguments(t1, a1, e1) && BiasArguments(t2, a2, e2)
    ensures Biased(t1, a1, e1) == Biased(t2, a2, e2) <==> t1 == t2 && a1 == a2 && e1 == e2
    ensures StateOf(Biased(t1, a1, e1)) == BiasedLock
    ensures Biased(t1, a1, e1) & !0x3FF == t1
  {
    BiasedFields(t1, a1, e1);
    BiasedFields(t2, a2, e2);
    ExactlyOneState(Biased(t1, a1, e1));
  }

  lemma BiasedFields(thread: bv64, age: bv64, epoch: bv64)
    requires BiasArguments(thread, age, epoch)
    ensures Biased(thread, age, epoch) & !0x3FF == thread
    ensures Age(Biased(thread, age, epoch)) == age && Epoch(Biased(thread, age, epoch)) == epoch
    ensures InState(Biased(thread, age, epoch), BiasedLock)
  {
    assert thread & 0x2 == 0 && Age(thread) == 0 && Epoch(thread) == 0;
    BiasedPattern(thread, age, epoch);
    BiasedAge(thread, age, epoch);
    BiasedEpoch(thread, age, epoch);
  }

  // ----- the layout in numbers -----

  /** The states by remainders: 0, 2, 3 of 4 are lightweight, heavyweight and marked; 1 and 5 of 8 unlocked and
      biased. */
  lemma StatesInNumbers(v: Mark)
    ensures IsLightweightLocked(v) <==> v % 4 == 0
    ensures IsHeavyweightLocked(v) <==> v % 4 == 2
    ensures IsMarked(v) <==> v % 4 == 3
    ensures IsUnlocked(v) <==> v % 8 == 1
    ensures HasBiasPattern(v) <==> v % 8 == 5
    ensures IsLocked(v) <==> v % 4 != 1
  {
  }

  /** Age and hash are fields of weight 8 and 256, of 4 and 31 bits. */
  lemma FieldsInNumbers(v: Mark)
    ensures Age(v) == v / 8 % 16
    ensures Epoch(v) == v / 256 % 4
    ensures Hash(v) == v / 256 % 0x8000_0000
  {
  }

  /** The biased word of an aligned thread and fitting arguments is a sum. */
  lemma BiasedInNumbers(thread: bv64, age: bv64, epoch: bv64)
    requires BiasArguments(thread, age, epoch)
    ensures Biased(thread, age, epoch) == thread + 256 * epoch + 8 * age + 5
  {
  }

  /** Encoders on words without a hash, and on monitors aligned to 4 bytes. */
  lemma EncodersInNumbers(m: Mark, hash: bv64, monitor: bv64)
    requires m < 256 && hash < 0x8000_0000 && monitor % 4 == 0
    ensures WithHash(m, hash) == m + 256 * hash
    ensures HeavyweightLocked(monitor) == monitor + 2
  {
  }

  /** The 256-byte alignment that the source's comment relies on is not enough: two 256-byte aligned
      threads with in-range arguments share a mark word, because the epoch sits in bits 8 and 9. */
  lemma ByteAlignedThreadsCollide()
    ensures exists t1: bv64, e1: bv64, t2: bv64, e2: bv64 ::
              && t1 & 0xFF == 0 && t2 & 0xFF == 0 && e1 < 4 && e2 < 4 && t1 != t2
              && Biased(t1, 0, e1) == Biased(t2, 0, e2)
  {
    assert Biased(0x100, 0, 0) == Biased(0, 0, 1);
  }

  /** For a 256-byte aligned thread and in-range arguments the age reads back, and every epoch does exactly
      when bits 8 and 9 of the thread are clear. */
  lemma BiasedByteAligned(thread: bv64, age: bv64, epoch: bv64)
    requires thread & 0xFF == 0 && age < 16 && epoch < 4
    ensures (forall e: bv64 :: e < 4 ==> Epoch(Biased(thread, age, e)) == e) <==> thread & 0x300 == 0
    ensures Age(Biased(thread, age, epoch)) == age
  {
    assert Age(thread) == 0;
    BiasedAge(thread, age, epoch);
    forall e: bv64 | e < 4
      ensures Epoch(Biased(thread, age, e)) == e <==> Epoch(thread) & !e == 0
    {
      BiasedEpoch(thread, age, e);
    }
    assert Epoch(thread) == 0 <==> thread & 0x300 == 0;
    if thread & 0x300 != 0 {
      assert Epoch(thread) & !(0 as bv64) != 0;
      assert Epoch(Biased(thread, age, 0)) != 0;
    }
  }
}
