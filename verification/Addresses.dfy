/** Sender addresses: a session writes `From` as id@host:port, and every receiver takes the
    part before the first '@' for the sender's id. */
module Addresses {

  function BeforeAt(s: string): string {
    if s == "" || s[0] == '@' then "" else [s[0]] + BeforeAt(s[1..])
  }

  lemma {:induction false} NoAtBefore(s: string)
    ensures '@' !in BeforeAt(s)
  {
    if s != "" && s[0] != '@' {
      NoAtBefore(s[1..]);
    }
  }

  lemma {:induction false} BeforeAtOfAddress(id: string, address: string)
    ensures BeforeAt(id + "@" + address) == BeforeAt(id)
  {
    var s := id + "@" + address;
    if id == "" {
      assert s[0] == '@';
    } else {
      assert s[0] == id[0] && s[1..] == id[1..] + "@" + address;
      BeforeAtOfAddress(id[1..], address);
    }
  }

  lemma {:induction false} WholeWithoutAt(id: string)
    requires '@' !in id
    ensures BeforeAt(id) == id
  {
    if id != "" {
      WholeWithoutAt(id[1..]);
    }
  }

  /** The id put in front of the address is read back if and only if it contains no '@';
      otherwise it is cut at the first one. */
  lemma SenderRoundTrip(id: string, address: string)
    ensures BeforeAt(id + "@" + address) == id <==> '@' !in id
    ensures BeforeAt(id + "@" + address) == BeforeAt(id)
  {
    BeforeAtOfAddress(id, address);
    NoAtBefore(id);
    if '@' !in id {
      WholeWithoutAt(id);
    }
  }
}
