/**
  The repository's test scenario, as a verified client of the filter.
*/
module SpamFilterScenario {
  import opened EmailAddressSpamFilter
  import opened SpamFilterProperties

  /**
    A new filter, loaded with an address file, reports as spam each of the three
    addresses that file lists ("trustme@evilspammer.com",
    "buyworthlessproduct@iwantyourmoney.com" and "joinus@pyramidscheme.com" in
    the repository's scenario), whatever the runtime's string hash is.
  */
  method VerifySpamEmailAddresses(hashCode: HashCode, spamFile: seq<Key>, trustMe: Key, buyWorthless: Key, joinUs: Key)
    returns (trustMeIsSpam: bool, buyWorthlessIsSpam: bool, joinUsIsSpam: bool)
    requires trustMe in spamFile && buyWorthless in spamFile && joinUs in spamFile
    ensures trustMeIsSpam && buyWorthlessIsSpam && joinUsIsSpam
  {
    var sf := new SpamFilter(hashCode);
    ghost var initial := sf.hashBits[..];
    NoFalseNegatives(initial, spamFile, trustMe, hashCode);
    NoFalseNegatives(initial, spamFile, buyWorthless, hashCode);
    NoFalseNegatives(initial, spamFile, joinUs, hashCode);
    sf.LoadSpamEmailAddresses(spamFile);

    trustMeIsSpam := sf.IsSpam(trustMe);
    buyWorthlessIsSpam := sf.IsSpam(buyWorthless);
    joinUsIsSpam := sf.IsSpam(joinUs);
  }

  /** A new filter, before anything is loaded, reports no address as spam. */
  method NewFilterReportsNothing(hashCode: HashCode, address: Key) returns (spam: bool)
    ensures !spam
  {
    var sf := new SpamFilter(hashCode);
    ghost var bits := sf.hashBits[..];
    assert forall i :: 0 <= i < |bits| ==> !bits[i];
    ClearFilterContainsNothing(bits, address, hashCode);
    spam := sf.IsSpam(address);
  }

  /**
    Two filters built separately from the same lines answer every query alike:
    nothing but the lines added and the runtime's string hash decides an answer.
  */
  method TwoFiltersAgree(hashCode: HashCode, lines: seq<Key>, address: Key) returns (first: bool, second: bool)
    ensures first == second
  {
    var one := new SpamFilter(hashCode);
    var two := new SpamFilter(hashCode);
    assert one.hashBits[..] == two.hashBits[..];
    one.LoadSpamEmailAddresses(lines);
    ghost var loaded := one.hashBits[..];
    two.LoadSpamEmailAddresses(lines);
    assert one.hashBits[..] == loaded == two.hashBits[..];
    first := one.IsSpam(address);
    second := two.IsSpam(address);
  }
}
