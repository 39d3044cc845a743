/**
  The email-address spam filter: a Bloom-filter-style membership structure over
  a fixed array of bits. A key (an address) is hashed twice: by the runtime's
  string hash (`primary`) and by the one-at-a-time avalanche mix (`secondary`).
  The three probe positions are `|p % Count|`, `|(p + s) % Count|` and
  `|(p + 2s) % Count|`. Adding a key sets its three bits; a key is reported as
  contained when all three of its bits are set.
*/
module EmailAddressSpamFilter {
  import opened CSharpInt

  /** A UTF-16 code unit, what a C# `char` holds. */
  type CodeUnit = c: int | 0 <= c < 0x1_0000

  /** A C# `string`: a sequence of UTF-16 code units. */
  type Key = seq<CodeUnit>

  /**
    `string.GetHashCode()`. The runtime picks it (randomised once per process),
    so the model takes it as a given, fixed function.
  */
  type HashCode = Key -> int32

  /** The number of bits of a filter, `new BitArray(2_000_000_000)`. */
  const Capacity: int32 := 2_000_000_000

  // ---------------------------------------------------------------------------
  // The secondary hash: Bob Jenkins' one-at-a-time hash on a 32-bit `int`
  // ---------------------------------------------------------------------------

  /** What the hash does with one character: `h += c; h += h << 10; h ^= h >> 6`. */
  function MixStep(hash: int32, c: CodeUnit): int32 {
    var h1 := WrapAdd(hash, c);
    var h2 := WrapAdd(h1, ShiftLeft(h1, 10));
    Xor(h2, ShiftRight(h2, 6))
  }

  /** The finalisation: `h += h << 3; h ^= h >> 11; h += h << 15`. */
  function Finish(hash: int32): int32 {
    var h1 := WrapAdd(hash, ShiftLeft(hash, 3));
    var h2 := Xor(h1, ShiftRight(h1, 11));
    WrapAdd(h2, ShiftLeft(h2, 15))
  }

  /** The state of the hash after mixing in the characters of `s`, in order, starting from `hash`. */
  function MixFrom(hash: int32, s: Key): int32
    decreases |s|
  {
    if s == [] then hash else MixFrom(MixStep(hash, s[0]), s[1..])
  }

  /** The secondary hash of a key, as a signed `int`. */
  function OneAtATime(s: Key): int32 {
    Finish(MixFrom(0, s))
  }

  // ---------------------------------------------------------------------------
  // Probe positions
  // ---------------------------------------------------------------------------

  /**
    `Math.Abs(x % count)`: the position that a combined hash `x` probes. The
    remainder is smaller than `count` in magnitude, so `Math.Abs` never sees
    `int.MinValue` and never throws, and the position is always in range.
  */
  function ProbeIndex(x: int32, count: int32): (i: nat)
    requires count > 0
    ensures i < count
  {
    Abs(Rem(x, count))
  }

  /** The three positions a key is stored at. */
  datatype Probes = Probes(first: nat, second: nat, third: nat) {
    /** Position `i` is one of the three. */
    predicate Covers(i: int) {
      i == first || i == second || i == third
    }

    /** All three are positions of a filter of `count` bits. */
    predicate Within(count: int) {
      first < count && second < count && third < count
    }
  }

  /**
    The probes for a primary hash `primary` and a secondary hash `secondary` in a
    filter of `count` bits, by double hashing: `primary + k * secondary` for
    k = 0, 1, 2, each sum wrapping around.
  */
  function ProbesFrom(primary: int32, secondary: int32, count: int32): (ps: Probes)
    requires count > 0
    ensures ps.Within(count)
  {
    Probes(ProbeIndex(primary, count),
           ProbeIndex(WrapAdd(primary, secondary), count),
           ProbeIndex(WrapAdd(primary, WrapMul(2, secondary)), count))
  }

  /** The probes of `key`: its runtime hash is the primary hash, its one-at-a-time hash the secondary. */
  function ProbesOf(key: Key, hashCode: HashCode, count: int32): (ps: Probes)
    requires count > 0
    ensures ps.Within(count)
  {
    ProbesFrom(hashCode(key), OneAtATime(key), count)
  }

  // ---------------------------------------------------------------------------
  // The filter as a value: its bits as a sequence
  // ---------------------------------------------------------------------------

  /** A bit array whose size `BitArray.Count` (an `int`) can hold, and that `%` may divide by. */
  predicate Sized(bits: seq<bool>) {
    0 < |bits| <= MaxValue
  }

  /** The bits after adding `key`: its three probe bits set, every other bit as it was. */
  function Insert(bits: seq<bool>, key: Key, hashCode: HashCode): (r: seq<bool>)
    requires Sized(bits)
    ensures |r| == |bits|
    ensures forall i :: 0 <= i < |bits| ==> r[i] == (bits[i] || ProbesOf(key, hashCode, |bits|).Covers(i))
  {
    var ps := ProbesOf(key, hashCode, |bits|);
    SetProbes(bits, ps)
  }

  function SetProbes(bits: seq<bool>, ps: Probes): (r: seq<bool>)
    requires ps.Within(|bits|)
    ensures |r| == |bits|
    ensures forall i :: 0 <= i < |bits| ==> r[i] == (bits[i] || ps.Covers(i))
  {
    bits[ps.first := true][ps.second := true][ps.third := true]
  }

  /**
    Whether `key` is reported as contained: all three of its probe bits are set.
    The first bit is looked at first, and when it is clear the answer is false
    whatever the other two are.
  */
  function Query(bits: seq<bool>, key: Key, hashCode: HashCode): (found: bool)
    requires Sized(bits)
    ensures found <==> forall i :: 0 <= i < |bits| && ProbesOf(key, hashCode, |bits|).Covers(i) ==> bits[i]
  {
    AllSet(bits, ProbesOf(key, hashCode, |bits|))
  }

  function AllSet(bits: seq<bool>, ps: Probes): (found: bool)
    requires ps.Within(|bits|)
    ensures found <==> forall i :: 0 <= i < |bits| && ps.Covers(i) ==> bits[i]
    ensures !bits[ps.first] ==> !found
  {
    if !bits[ps.first] then false else bits[ps.second] && bits[ps.third]
  }

  /** The bits after adding each of `keys`, first to last. */
  function InsertAll(bits: seq<bool>, keys: seq<Key>, hashCode: HashCode): (r: seq<bool>)
    requires Sized(bits)
    ensures |r| == |bits|
    decreases |keys|
  {
    if keys == [] then bits else InsertAll(Insert(bits, keys[0], hashCode), keys[1..], hashCode)
  }

  // ---------------------------------------------------------------------------
  // The filter object
  // ---------------------------------------------------------------------------

  class SpamFilter {
    /** `string.GetHashCode()` of the process the filter lives in. */
    const hashCode: HashCode
    /** `_hashBits`; the field is readonly, the bits it holds are not. */
    const hashBits: array<bool>

    ghost predicate Valid() {
      hashBits.Length == Capacity
    }

    /** A filter of `Capacity` bits, all clear. */
    constructor (hashCode: HashCode)
      ensures Valid() && fresh(hashBits)
      ensures this.hashCode == hashCode
      ensures forall i :: 0 <= i < hashBits.Length ==> !hashBits[i]
    {
      this.hashCode := hashCode;
      hashBits := new bool[Capacity](_ => false);
    }

    /** `IsSpam`: the same answer as `Contains`. */
    method IsSpam(emailAddress: Key) returns (spam: bool)
      requires Valid()
      ensures spam == Query(hashBits[..], emailAddress, hashCode)
    {
      spam := Contains(emailAddress);
    }

    /**
      Adds `item`. The avalanche mix is written out here again, as a loop over
      the characters, rather than calling `HashString`; it computes the same value.
    */
    method Add(item: Key)
      requires Valid()
      modifies hashBits
      ensures hashBits[..] == Insert(old(hashBits[..]), item, hashCode)
      ensures Query(hashBits[..], item, hashCode)
    {
      var value: int32 := 0;
      for n := 0 to |item|
        invariant MixFrom(value, item[n..]) == MixFrom(0, item)
        modifies {}
      {
        var t := item[n];
        assert item[n..][1..] == item[n + 1..];
        value := WrapAdd(value, t);
        value := WrapAdd(value, ShiftLeft(value, 10));
        value := Xor(value, ShiftRight(value, 6));
      }
      value := WrapAdd(value, ShiftLeft(value, 3));
      value := Xor(value, ShiftRight(value, 11));
      value := WrapAdd(value, ShiftLeft(value, 15));

      var ps := ProbesFrom(hashCode(item), value, hashBits.Length);
      SetProbeBits(ps);
    }

    /** The bit writes of `Add`: the three probe bits are set, the others kept. */
    method SetProbeBits(ps: Probes)
      requires ps.Within(hashBits.Length)
      modifies hashBits
      ensures hashBits[..] == SetProbes(old(hashBits[..]), ps)
    {
      hashBits[ps.first] := true;
      hashBits[ps.second] := true;
      hashBits[ps.third] := true;
    }

    /**
      Whether `item` may have been added: false as soon as the first probe bit is
      clear, otherwise whether the other two are both set.
    */
    method Contains(item: Key) returns (found: bool)
      requires Valid()
      ensures found == Query(hashBits[..], item, hashCode)
    {
      var primaryHash := hashCode(item);
      var secondaryHash := HashString(item);
      var ps := ProbesFrom(primaryHash, secondaryHash, hashBits.Length);
      found := ProbeBitsSet(ps);
    }

    /**
      The bit reads of `Contains`: false as soon as the first probe bit is clear,
      otherwise whether the other two are both set.
    */
    method ProbeBitsSet(ps: Probes) returns (found: bool)
      requires ps.Within(hashBits.Length)
      ensures found == AllSet(hashBits[..], ps)
    {
      if !hashBits[ps.first] {
        return false;
      }
      return hashBits[ps.second] && hashBits[ps.third];
    }

    /** The secondary hash, one character at a time. */
    static method HashString(s: Key) returns (hash: int32)
      ensures hash == OneAtATime(s)
    {
      hash := 0;
      for i := 0 to |s|
        invariant MixFrom(hash, s[i..]) == MixFrom(0, s)
      {
        assert s[i..][1..] == s[i + 1..];
        hash := WrapAdd(hash, s[i]);
        hash := WrapAdd(hash, ShiftLeft(hash, 10));
        hash := Xor(hash, ShiftRight(hash, 6));
      }
      hash := WrapAdd(hash, ShiftLeft(hash, 3));
      hash := Xor(hash, ShiftRight(hash, 11));
      hash := WrapAdd(hash, ShiftLeft(hash, 15));
    }

    /**
      `LoadSpamEmailAddresses`, given the lines of the file: adds each line as a
      key, in file order.
    */
    method LoadSpamEmailAddresses(lines: seq<Key>)
      requires Valid()
      modifies hashBits
      ensures hashBits[..] == InsertAll(old(hashBits[..]), lines, hashCode)
    {
      for n := 0 to |lines|
        invariant InsertAll(hashBits[..], lines[n..], hashCode) == InsertAll(old(hashBits[..]), lines, hashCode)
      {
        assert lines[n..][1..] == lines[n + 1..];
        Add(lines[n]);
      }
    }
  }
}
