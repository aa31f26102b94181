/** The per-recipient record that `scan` builds and then finishes. */
module DeliveryStatus {
  import opened Wrappers

  /**
   * One entry of `dscontents`, a hash in the source.  None stands for a
   * field that is nil (absent or never assigned).  `msexch` and `alterrors`
   * are this parser's own working fields.
   */
  datatype Record = Record(
    recipient: Option<string>,
    diagnosis: Option<string>,
    alterrors: Option<string>,
    msexch: Option<bool>,
    reason: Option<string>,
    status: Option<string>,
    action: Option<string>,
    spec: Option<string>,
    lhost: Option<string>,
    rhost: Option<string>,
    agent: Option<string>)

  /** `Sisimai::MTA.DELIVERYSTATUS`: a record with no field set. */
  function Fresh(): Record {
    Record(None, None, None, None, None, None, None, None, None, None, None)
  }

  /**
   * The fields only the normaliser writes are still unset: the body loop
   * touches nothing but recipient, diagnosis, alterrors and msexch.
   */
  predicate Unfinished(r: Record) {
    && r.reason.None? && r.status.None? && r.action.None? && r.spec.None?
    && r.lhost.None? && r.rhost.None? && r.agent.None?
  }

  /** The recipient addresses of the records that have one, in list order. */
  function Addresses(rs: seq<Record>): seq<string>
    decreases |rs|
  {
    if rs == [] then []
    else
      var last := rs[|rs| - 1];
      Addresses(rs[..|rs| - 1]) + (if last.recipient.Some? then [last.recipient.value] else [])
  }

  /** When every record has a recipient, the addresses are exactly theirs. */
  lemma {:induction false} AddressesOfAll(rs: seq<Record>)
    requires forall k | 0 <= k < |rs| :: rs[k].recipient.Some?
    ensures |Addresses(rs)| == |rs|
    ensures forall k | 0 <= k < |rs| :: Addresses(rs)[k] == rs[k].recipient.value
    decreases |rs|
  {
    if rs != [] {
      AddressesOfAll(rs[..|rs| - 1]);
    }
  }
}
