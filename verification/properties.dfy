/**
  What the spam filter promises, proved about its value-level model: the hash,
  the probe positions, and the bit sequence that `Add` and `Contains` act on.

  The facts about bits are proved once for probe triples, where no hashing is
  in sight, and then read back for keys through `ProbesOf`.
*/
module SpamFilterProperties {
  import opened CSharpInt
  import opened EmailAddressSpamFilter

  // ---------------------------------------------------------------------------
  // The secondary hash
  // ---------------------------------------------------------------------------

  /** Shifting 0 either way gives 0. */
  lemma ShiftsOfZero(n: nat)
    requires n < 32
    ensures ShiftLeft(0, n) == 0 && ShiftRight(0, n) == 0
  {
  }

  /**
    The characters are mixed in from first to last: mixing a string and then one
    more character is mixing the longer string, the order the loops of `Add` and
    `HashString` follow.
  */
  lemma {:induction false} MixFromAppend(hash: int32, s: Key, c: CodeUnit)
    ensures MixFrom(hash, s + [c]) == MixStep(MixFrom(hash, s), c)
    decreases |s|
  {
    if s != [] {
      assert (s + [c])[1..] == s[1..] + [c];
      MixFromAppend(MixStep(hash, s[0]), s[1..], c);
    }
  }

  /** Each finalisation step maps 0 to 0. */
  lemma FinishFixesZero()
    ensures Finish(0) == 0
  {
    ShiftsOfZero(3);
    ShiftsOfZero(11);
    ShiftsOfZero(15);
    XorSelfIsZero(0);
  }

  /** The empty string hashes to 0: no character is mixed in and finalisation keeps 0. */
  lemma EmptyKeyHashesToZero()
    ensures OneAtATime([]) == 0
  {
    FinishFixesZero();
  }

  /**
    So the three probes of the empty string, which an empty line of the address
    file adds, are one and the same position.
  */
  lemma EmptyKeyProbesOnePosition(hashCode: HashCode, count: int32)
    requires count > 0
    ensures ProbesOf([], hashCode, count).second == ProbesOf([], hashCode, count).first
    ensures ProbesOf([], hashCode, count).third == ProbesOf([], hashCode, count).first
  {
    EmptyKeyHashesToZero();
    ZeroSecondaryProbesOnePosition(hashCode([]), count);
  }

  /** With a secondary hash of 0, the three probes coincide. */
  lemma ZeroSecondaryProbesOnePosition(primary: int32, count: int32)
    requires count > 0
    ensures ProbesFrom(primary, 0, count).second == ProbesFrom(primary, 0, count).first
    ensures ProbesFrom(primary, 0, count).third == ProbesFrom(primary, 0, count).first
  {
  }

  // ---------------------------------------------------------------------------
  // Probe positions
  // ---------------------------------------------------------------------------

  /**
    The probe position of a combined hash is its magnitude modulo the bit count:
    C#'s `%` keeps the sign of the dividend and `Math.Abs` then drops it.
  */
  lemma ProbeIndexIsMagnitudeModCount(x: int32, count: int32)
    requires count > 0
    ensures ProbeIndex(x, count) == AbsInt(x) % count
  {
  }

  /**
    Because the absolute value is taken after the remainder, a combined hash and
    its negation probe the same position.
  */
  lemma ProbeIndexIgnoresSign(x: int32, count: int32)
    requires count > 0
    requires x != MinValue
    ensures ProbeIndex(-x, count) == ProbeIndex(x, count)
  {
    ProbeIndexIsMagnitudeModCount(x, count);
    ProbeIndexIsMagnitudeModCount(-x, count);
  }

  // ---------------------------------------------------------------------------
  // One probe triple
  // ---------------------------------------------------------------------------

  /** Setting a triple leaves all three of its bits set. */
  lemma SetProbesSetsThem(bits: seq<bool>, ps: Probes)
    requires ps.Within(|bits|)
    ensures AllSet(SetProbes(bits, ps), ps)
  {
  }

  /** Setting a triple clears nothing, so a triple that was all set stays all set. */
  lemma SetProbesKeepsAllSet(bits: seq<bool>, ps: Probes, qs: Probes)
    requires ps.Within(|bits|) && qs.Within(|bits|)
    requires AllSet(bits, ps)
    ensures AllSet(SetProbes(bits, qs), ps)
  {
  }

  /** Setting a triple a second time changes nothing. */
  lemma SetProbesIdempotent(bits: seq<bool>, ps: Probes)
    requires ps.Within(|bits|)
    ensures SetProbes(SetProbes(bits, ps), ps) == SetProbes(bits, ps)
  {
    var once := SetProbes(bits, ps);
    assert forall i :: 0 <= i < |bits| ==> SetProbes(once, ps)[i] == once[i];
  }

  /** Two triples set in either order leave the same bits. */
  lemma SetProbesCommute(bits: seq<bool>, ps: Probes, qs: Probes)
    requires ps.Within(|bits|) && qs.Within(|bits|)
    ensures SetProbes(SetProbes(bits, ps), qs) == SetProbes(SetProbes(bits, qs), ps)
  {
    var pq := SetProbes(SetProbes(bits, ps), qs);
    var qp := SetProbes(SetProbes(bits, qs), ps);
    assert forall i :: 0 <= i < |bits| ==> pq[i] == qp[i];
  }

  // ---------------------------------------------------------------------------
  // One key
  // ---------------------------------------------------------------------------

  /** After adding a key, the filter contains it. */
  lemma AddedKeyIsContained(bits: seq<bool>, key: Key, hashCode: HashCode)
    requires Sized(bits)
    ensures Query(Insert(bits, key, hashCode), key, hashCode)
  {
    SetProbesSetsThem(bits, ProbesOf(key, hashCode, |bits|));
  }

  /** Adding a key never clears a bit, so a key that was contained stays contained. */
  lemma InsertKeepsAnswers(bits: seq<bool>, key: Key, other: Key, hashCode: HashCode)
    requires Sized(bits)
    requires Query(bits, key, hashCode)
    ensures Query(Insert(bits, other, hashCode), key, hashCode)
  {
    SetProbesKeepsAllSet(bits, ProbesOf(key, hashCode, |bits|), ProbesOf(other, hashCode, |bits|));
  }

  /** Adding the same key twice leaves the same bits as adding it once. */
  lemma InsertIdempotent(bits: seq<bool>, key: Key, hashCode: HashCode)
    requires Sized(bits)
    ensures Insert(Insert(bits, key, hashCode), key, hashCode) == Insert(bits, key, hashCode)
  {
    SetProbesIdempotent(bits, ProbesOf(key, hashCode, |bits|));
  }

  /** Two keys added in either order leave the same bits. */
  lemma InsertCommutes(bits: seq<bool>, a: Key, b: Key, hashCode: HashCode)
    requires Sized(bits)
    ensures Insert(Insert(bits, a, hashCode), b, hashCode) == Insert(Insert(bits, b, hashCode), a, hashCode)
  {
    SetProbesCommute(bits, ProbesOf(a, hashCode, |bits|), ProbesOf(b, hashCode, |bits|));
  }

  /** A filter whose bits are all clear, as a new one is, contains no key. */
  lemma ClearFilterContainsNothing(bits: seq<bool>, key: Key, hashCode: HashCode)
    requires Sized(bits)
    requires forall i :: 0 <= i < |bits| ==> !bits[i]
    ensures !Query(bits, key, hashCode)
  {
    var ps := ProbesOf(key, hashCode, |bits|);
    assert !bits[ps.first];
  }

  // ---------------------------------------------------------------------------
  // Many probe triples
  // ---------------------------------------------------------------------------

  /** The probes of each key, in order, found by `probesOf`. */
  function MapProbes(keys: seq<Key>, probesOf: Key -> Probes): (pss: seq<Probes>)
    ensures |pss| == |keys|
    ensures forall j :: 0 <= j < |keys| ==> pss[j] == probesOf(keys[j])
  {
    seq(|keys|, j requires 0 <= j < |keys| => probesOf(keys[j]))
  }

  /** How a filter of `count` bits finds the probes of a key, as a function value. */
  function KeyProbes(hashCode: HashCode, count: int32): Key -> Probes
    requires count > 0
  {
    key => ProbesOf(key, hashCode, count)
  }

  /** The probes of each key, in order. */
  function ProbesOfAll(keys: seq<Key>, hashCode: HashCode, count: int32): seq<Probes>
    requires count > 0
  {
    MapProbes(keys, KeyProbes(hashCode, count))
  }

  /** All triples are positions of `bits`. */
  predicate AllWithin(pss: seq<Probes>, count: int) {
    forall j :: 0 <= j < |pss| ==> pss[j].Within(count)
  }

  /** The bits after setting each triple of `pss`, first to last. */
  function SetAll(bits: seq<bool>, pss: seq<Probes>): (r: seq<bool>)
    requires AllWithin(pss, |bits|)
    ensures |r| == |bits|
    decreases |pss|
  {
    if pss == [] then bits else SetAll(SetProbes(bits, pss[0]), pss[1..])
  }

  /** Some triple of `pss` covers position `i`. */
  ghost predicate CoveredBySome(pss: seq<Probes>, i: int) {
    exists j :: 0 <= j < |pss| && pss[j].Covers(i)
  }

  /** The probes of keys are positions of the filter. */
  lemma ProbesOfAllWithin(keys: seq<Key>, hashCode: HashCode, count: int32)
    requires count > 0
    ensures AllWithin(ProbesOfAll(keys, hashCode, count), count)
  {
    var pss := ProbesOfAll(keys, hashCode, count);
    forall j | 0 <= j < |pss|
      ensures pss[j].Within(count)
    {
      assert pss[j] == ProbesOf(keys[j], hashCode, count);
    }
  }

  /** Adding keys one by one is setting their probe triples one by one. */
  lemma {:induction false} InsertAllIsSetAll(bits: seq<bool>, keys: seq<Key>, hashCode: HashCode)
    requires Sized(bits)
    ensures AllWithin(ProbesOfAll(keys, hashCode, |bits|), |bits|)
    ensures InsertAll(bits, keys, hashCode) == SetAll(bits, ProbesOfAll(keys, hashCode, |bits|))
    decreases |keys|
  {
    ProbesOfAllWithin(keys, hashCode, |bits|);
    if keys != [] {
      var probesOf := KeyProbes(hashCode, |bits|);
      var next := Insert(bits, keys[0], hashCode);
      MapProbesTail(keys, probesOf);
      assert probesOf(keys[0]) == ProbesOf(keys[0], hashCode, |bits|);
      InsertAllIsSetAll(next, keys[1..], hashCode);
    }
  }

  /** Dropping the first key drops the first triple. */
  lemma MapProbesTail(keys: seq<Key>, probesOf: Key -> Probes)
    requires keys != []
    ensures MapProbes(keys, probesOf)[0] == probesOf(keys[0])
    ensures MapProbes(keys, probesOf)[1..] == MapProbes(keys[1..], probesOf)
  {
    var pss := MapProbes(keys, probesOf);
    assert forall j :: 0 <= j < |keys| - 1 ==> pss[1..][j] == MapProbes(keys[1..], probesOf)[j];
  }

  /** After setting a list of triples, a bit is set exactly when it was set or some triple covers it. */
  lemma {:induction false} SetAllSetsCovered(bits: seq<bool>, pss: seq<Probes>)
    requires AllWithin(pss, |bits|)
    ensures forall i :: 0 <= i < |bits| ==> (SetAll(bits, pss)[i] <==> bits[i] || CoveredBySome(pss, i))
    decreases |pss|
  {
    if pss != [] {
      var next := SetProbes(bits, pss[0]);
      SetAllSetsCovered(next, pss[1..]);
      forall i | 0 <= i < |bits|
        ensures SetAll(bits, pss)[i] <==> bits[i] || CoveredBySome(pss, i)
      {
        if CoveredBySome(pss, i) && !pss[0].Covers(i) {
          var j :| 0 <= j < |pss| && pss[j].Covers(i);
          assert pss[1..][j - 1] == pss[j];
        }
        if CoveredBySome(pss[1..], i) {
          var j :| 0 <= j < |pss[1..]| && pss[1..][j].Covers(i);
          assert pss[j + 1] == pss[1..][j];
        }
      }
    }
  }

  /** Setting a list of triples never clears a bit. */
  lemma {:induction false} SetAllKeepsAllSet(bits: seq<bool>, pss: seq<Probes>, ps: Probes)
    requires AllWithin(pss, |bits|) && ps.Within(|bits|)
    requires AllSet(bits, ps)
    ensures AllSet(SetAll(bits, pss), ps)
    decreases |pss|
  {
    if pss != [] {
      SetProbesKeepsAllSet(bits, ps, pss[0]);
      SetAllKeepsAllSet(SetProbes(bits, pss[0]), pss[1..], ps);
    }
  }

  /** After setting the triples of a list of keys, the triple of each key of the list is all set. */
  lemma SetAllSetsEachKey(bits: seq<bool>, keys: seq<Key>, probesOf: Key -> Probes, key: Key)
    requires AllWithin(MapProbes(keys, probesOf), |bits|)
    requires key in keys
    ensures probesOf(key).Within(|bits|)
    ensures AllSet(SetAll(bits, MapProbes(keys, probesOf)), probesOf(key))
  {
    var pss := MapProbes(keys, probesOf);
    var j :| 0 <= j < |keys| && keys[j] == key;
    assert pss[j] == probesOf(key);
    SetAllSetsCovered(bits, pss);
  }

  // ---------------------------------------------------------------------------
  // Many keys
  // ---------------------------------------------------------------------------

  /** Some key of `keys` probes position `i` of a filter of `count` bits. */
  ghost predicate ProbedBySome(keys: seq<Key>, hashCode: HashCode, count: int32, i: int)
    requires count > 0
  {
    CoveredBySome(ProbesOfAll(keys, hashCode, count), i)
  }

  /**
    After adding a list of keys, a bit is set exactly when it was set before or
    some key of the list probes it.
  */
  lemma InsertAllSetsProbedBits(bits: seq<bool>, keys: seq<Key>, hashCode: HashCode)
    requires Sized(bits)
    ensures forall i :: 0 <= i < |bits| ==>
      (InsertAll(bits, keys, hashCode)[i] <==> bits[i] || ProbedBySome(keys, hashCode, |bits|, i))
  {
    InsertAllIsSetAll(bits, keys, hashCode);
    SetAllSetsCovered(bits, ProbesOfAll(keys, hashCode, |bits|));
  }

  /**
    No false negatives: every key of the list is contained once the list has been
    added, whatever else the list holds.
  */
  lemma NoFalseNegatives(bits: seq<bool>, keys: seq<Key>, key: Key, hashCode: HashCode)
    requires Sized(bits)
    requires key in keys
    ensures Query(InsertAll(bits, keys, hashCode), key, hashCode)
  {
    var probesOf := KeyProbes(hashCode, |bits|);
    InsertAllIsSetAll(bits, keys, hashCode);
    SetAllSetsEachKey(bits, keys, probesOf, key);
    assert probesOf(key) == ProbesOf(key, hashCode, |bits|);
  }

  /** A key that is contained stays contained whatever is added afterwards. */
  lemma InsertAllKeepsAnswers(bits: seq<bool>, keys: seq<Key>, key: Key, hashCode: HashCode)
    requires Sized(bits)
    requires Query(bits, key, hashCode)
    ensures Query(InsertAll(bits, keys, hashCode), key, hashCode)
  {
    InsertAllIsSetAll(bits, keys, hashCode);
    SetAllKeepsAllSet(bits, ProbesOfAll(keys, hashCode, |bits|), ProbesOf(key, hashCode, |bits|));
  }

  /**
    The bits after adding a list depend only on which keys it holds: not on
    their order, nor on how often each occurs.
  */
  lemma InsertAllDependsOnKeysOnly(bits: seq<bool>, keys: seq<Key>, others: seq<Key>, hashCode: HashCode)
    requires Sized(bits)
    requires forall k :: k in keys <==> k in others
    ensures InsertAll(bits, keys, hashCode) == InsertAll(bits, others, hashCode)
  {
    var pss := ProbesOfAll(keys, hashCode, |bits|);
    var qss := ProbesOfAll(others, hashCode, |bits|);
    InsertAllIsSetAll(bits, keys, hashCode);
    InsertAllIsSetAll(bits, others, hashCode);
    forall i
      ensures CoveredBySome(pss, i) <==> CoveredBySome(qss, i)
    {
      if CoveredBySome(pss, i) {
        SameKeysCoverAlike(keys, others, KeyProbes(hashCode, |bits|), i);
      }
      if CoveredBySome(qss, i) {
        SameKeysCoverAlike(others, keys, KeyProbes(hashCode, |bits|), i);
      }
    }
    SetAllSameCover(bits, pss, qss);
  }

  /** Two lists of triples that cover the same positions set the same bits. */
  lemma SetAllSameCover(bits: seq<bool>, pss: seq<Probes>, qss: seq<Probes>)
    requires AllWithin(pss, |bits|) && AllWithin(qss, |bits|)
    requires forall i :: CoveredBySome(pss, i) <==> CoveredBySome(qss, i)
    ensures SetAll(bits, pss) == SetAll(bits, qss)
  {
    SetAllSetsCovered(bits, pss);
    SetAllSetsCovered(bits, qss);
    assert forall i :: 0 <= i < |bits| ==> SetAll(bits, pss)[i] == SetAll(bits, qss)[i];
  }

  /** Keys that all occur in `others` cover nothing that `others` does not. */
  lemma SameKeysCoverAlike(keys: seq<Key>, others: seq<Key>, probesOf: Key -> Probes, i: int)
    requires forall k :: k in keys ==> k in others
    requires CoveredBySome(MapProbes(keys, probesOf), i)
    ensures CoveredBySome(MapProbes(others, probesOf), i)
  {
    var pss := MapProbes(keys, probesOf);
    var qss := MapProbes(others, probesOf);
    var j :| 0 <= j < |pss| && pss[j].Covers(i);
    assert keys[j] in others;
    var m :| 0 <= m < |others| && others[m] == keys[j];
    assert qss[m] == pss[j];
  }

  /** Order independence: adding any permutation of a list leaves the same bits. */
  lemma InsertAllPermutation(bits: seq<bool>, keys: seq<Key>, others: seq<Key>, hashCode: HashCode)
    requires Sized(bits)
    requires multiset(keys) == multiset(others)
    ensures InsertAll(bits, keys, hashCode) == InsertAll(bits, others, hashCode)
  {
    forall k
      ensures k in keys <==> k in others
    {
      assert k in keys <==> k in multiset(keys);
      assert k in others <==> k in multiset(others);
    }
    InsertAllDependsOnKeysOnly(bits, keys, others, hashCode);
  }

  /** Loading the same list a second time changes nothing. */
  lemma InsertAllIdempotent(bits: seq<bool>, keys: seq<Key>, hashCode: HashCode)
    requires Sized(bits)
    ensures InsertAll(InsertAll(bits, keys, hashCode), keys, hashCode) == InsertAll(bits, keys, hashCode)
  {
    var once := InsertAll(bits, keys, hashCode);
    var twice := InsertAll(once, keys, hashCode);
    InsertAllSetsProbedBits(bits, keys, hashCode);
    InsertAllSetsProbedBits(once, keys, hashCode);
    assert forall i :: 0 <= i < |bits| ==> twice[i] == once[i];
  }
}
