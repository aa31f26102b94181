/**
 * The line-by-line walk over the bounce body in `scan` (lines 111-254 of
 * lib/sisimai/mta/exchange.rb): the specification as a step function over
 * a parser state, and the loop that the source runs, proved to agree with it.
 */
module Body {
  import opened Wrappers
  import opened Text
  import opened Collaborators
  import opened Patterns
  import opened DeliveryStatus

  /** `connheader`: what the bounce echoes of the original message. */
  datatype ConnHeader = ConnHeader(to: string, date: string, subject: string)

  /** `connheader.keys.size`. */
  const ConnKeys := 3

  /** The slots of `connheader` that hold a value. */
  function FilledSlots(c: ConnHeader): nat {
    (if |c.to| > 0 then 1 else 0) + (if |c.date| > 0 then 1 else 0)
      + (if |c.subject| > 0 then 1 else 0)
  }

  /**
   * The variables of the loop.  The two bits of `readcursor` are the two
   * booleans; `dscontents` is `done + [current]`, where `current` is the
   * record `dscontents[-1]` that the loop keeps updating.  `rfc822next`
   * holds the field names it maps to true.
   */
  datatype ScanState = ScanState(
    inDeliveryStatus: bool,
    inMessageRfc822: bool,
    conn: ConnHeader,
    connvalues: nat,
    recipients: nat,
    statuspart: bool,
    done: seq<Record>,
    current: Record,
    rfc822part: string,
    previousfn: string,
    rfc822next: set<string>)

  function Initial(): ScanState {
    ScanState(false, false, ConnHeader("", "", ""), 0, 0, false, [], Fresh(), "", "", {})
  }

  /** `dscontents`. */
  function RecordsOf(st: ScanState): seq<Record> {
    st.done + [st.current]
  }

  /** A line after the `message/rfc822` marker (lines 148-169). */
  function CaptureHeader(env: Env, st: ScanState, e: string): ScanState {
    var name := HeaderName(e);
    if name.Some? then
      var lhs := Lower(name.value);
      if lhs in env.headerFields then st.(previousfn := lhs, rfc822part := st.rfc822part + e + "\n")
      else st.(previousfn := "")
    else if StartsWithSpace(e) then
      if st.previousfn !in st.rfc822next && st.previousfn in env.longFields
      then st.(rfc822part := st.rfc822part + e + "\n")
      else st
    else if st.previousfn in env.longFields && e == "" then
      st.(rfc822next := st.rfc822next + {st.previousfn})
    else st
  }

  /** A line of the header echo, before all three slots are filled (lines 225-252). */
  function ReadConnLine(env: Env, st: ScanState, e: string): ScanState {
    var to, subject, date := IndentedField(e, "To:"), IndentedField(e, "Subject:"), env.sentDate(e);
    if to.Some? then
      if |st.conn.to| > 0 then st
      else st.(conn := st.conn.(to := to.value), connvalues := st.connvalues + 1)
    else if subject.Some? then
      if |st.conn.subject| > 0 then st
      else st.(conn := st.conn.(subject := subject.value), connvalues := st.connvalues + 1)
    else if date.Some? then
      if |st.conn.date| > 0 then st
      else st.(conn := st.conn.(date := date.value), connvalues := st.connvalues + 1)
    else st
  }

  /** A line of the per-recipient part (lines 189-223). */
  function ReadRecipientLine(env: Env, st: ScanState, e: string): ScanState {
    var v := st.current;
    var address := env.recipientAddress(e);
    if address.Some? then
      var named := Record(Some(address.value), None, None, Some(false), None, None, None,
                          None, None, None, None);
      if v.recipient.Some? then
        st.(done := st.done + [v], current := named, recipients := st.recipients + 1)
      else
        st.(current := v.(recipient := Some(address.value), msexch := Some(false)),
            recipients := st.recipients + 1)
    else if MsexchLine(e).Some? then
      st.(current := v.(diagnosis := Some(v.diagnosis.GetOr("") + MsexchLine(e).value)))
    else if v.msexch == Some(true) then st
    else if v.diagnosis.Some? && IsMsexchText(v.diagnosis.value) then
      st.(current := v.(msexch := Some(true), diagnosis := Some(v.diagnosis.value + " " + e)),
          statuspart := true)
    else
      st.(current := v.(alterrors := Some(v.alterrors.GetOr("") + " " + e)))
  }

  /** One pass of `hasdivided.each`. */
  function Step(env: Env, st: ScanState, e: string): ScanState {
    if !st.inDeliveryStatus && !st.inMessageRfc822 && IsBeginMarker(e) then
      st.(inDeliveryStatus := true)
    else if !st.inMessageRfc822 && IsRfc822Marker(e) then
      st.(inMessageRfc822 := true)
    else if st.inMessageRfc822 then CaptureHeader(env, st, e)
    else if !st.inDeliveryStatus || st.statuspart then st
    else if st.connvalues == ConnKeys then ReadRecipientLine(env, st, e)
    else ReadConnLine(env, st, e)
  }

  /** The state after every line of `lines`, in order. */
  function Run(env: Env, st: ScanState, lines: seq<string>): ScanState
    decreases |lines|
  {
    if lines == [] then st
    else Step(env, Run(env, st, lines[..|lines| - 1]), lines[|lines| - 1])
  }

  /**
   * The loop of `scan` over the body lines, updating its variables in place
   * as the source does; it ends in the state `Run` describes.
   */
  method ParseBody(env: Env, lines: seq<string>)
    returns (dscontents: seq<Record>, rfc822part: string, connheader: ConnHeader, recipients: nat)
    ensures dscontents == RecordsOf(Run(env, Initial(), lines))
    ensures rfc822part == Run(env, Initial(), lines).rfc822part
    ensures connheader == Run(env, Initial(), lines).conn
    ensures recipients == Run(env, Initial(), lines).recipients
  {
    dscontents := [Fresh()];
    var rfc822next: set<string> := {};
    rfc822part := "";
    var previousfn := "";
    var inDeliveryStatus, inMessageRfc822 := false, false;
    recipients := 0;
    var statuspart := false;
    var connvalues: nat := 0;
    connheader := ConnHeader("", "", "");
    ghost var st := Initial();
    var i := 0;
    while i < |lines|
      invariant i <= |lines|
      invariant st == Run(env, Initial(), lines[..i])
      invariant inDeliveryStatus == st.inDeliveryStatus && inMessageRfc822 == st.inMessageRfc822
      invariant connheader == st.conn && connvalues == st.connvalues
      invariant recipients == st.recipients && statuspart == st.statuspart
      invariant dscontents == RecordsOf(st)
      invariant rfc822part == st.rfc822part && previousfn == st.previousfn
      invariant rfc822next == st.rfc822next
    {
      var e := lines[i];
      inDeliveryStatus, inMessageRfc822, connheader, connvalues, recipients, statuspart,
        dscontents, rfc822part, previousfn, rfc822next :=
        ReadLine(env, e, inDeliveryStatus, inMessageRfc822, connheader, connvalues, recipients,
                 statuspart, dscontents, rfc822part, previousfn, rfc822next, st);
      st := Step(env, st, e);
      assert lines[..i + 1][..i] == lines[..i];
      i := i + 1;
    }
    assert lines[..|lines|] == lines;
  }

  /** One pass of the loop body, on the loop's variables: what `Step` does to them. */
  method ReadLine(env: Env, e: string, ds0: bool, rfc0: bool, c0: ConnHeader, cv0: nat, n0: nat,
                  sp0: bool, recs0: seq<Record>, part0: string, prev0: string, next0: set<string>,
                  ghost st: ScanState)
    returns (inDeliveryStatus: bool, inMessageRfc822: bool, connheader: ConnHeader, connvalues: nat,
             recipients: nat, statuspart: bool, dscontents: seq<Record>, rfc822part: string,
             previousfn: string, rfc822next: set<string>)
    requires ds0 == st.inDeliveryStatus && rfc0 == st.inMessageRfc822
    requires c0 == st.conn && cv0 == st.connvalues && n0 == st.recipients && sp0 == st.statuspart
    requires recs0 == RecordsOf(st) && part0 == st.rfc822part && prev0 == st.previousfn
    requires next0 == st.rfc822next
    ensures var st' := Step(env, st, e);
            && inDeliveryStatus == st'.inDeliveryStatus && inMessageRfc822 == st'.inMessageRfc822
            && connheader == st'.conn && connvalues == st'.connvalues
            && recipients == st'.recipients && statuspart == st'.statuspart
            && dscontents == RecordsOf(st') && rfc822part == st'.rfc822part
            && previousfn == st'.previousfn && rfc822next == st'.rfc822next
  {
    inDeliveryStatus, inMessageRfc822, connheader, connvalues, recipients, statuspart :=
      ds0, rfc0, c0, cv0, n0, sp0;
    dscontents, rfc822part, previousfn, rfc822next := recs0, part0, prev0, next0;
    if !inDeliveryStatus && !inMessageRfc822 && IsBeginMarker(e) {
      inDeliveryStatus := true;
    } else if !inMessageRfc822 && IsRfc822Marker(e) {
      inMessageRfc822 := true;
    } else if inMessageRfc822 {
      rfc822part, previousfn, rfc822next := CaptureLine(env, rfc822part, previousfn, rfc822next, e, st);
    } else if inDeliveryStatus && !statuspart {
      if connvalues == ConnKeys {
        dscontents, recipients, statuspart := RecipientLine(env, dscontents, recipients, e, st);
      } else {
        connheader, connvalues := ConnLine(env, connheader, connvalues, e, st);
      }
    }
  }

  /** Lines 148-169 on the loop's variables: what `CaptureHeader` does to them. */
  method CaptureLine(env: Env, part: string, prev: string, next: set<string>, e: string,
                     ghost st: ScanState)
    returns (rfc822part: string, previousfn: string, rfc822next: set<string>)
    requires part == st.rfc822part && prev == st.previousfn && next == st.rfc822next
    ensures var st' := CaptureHeader(env, st, e);
            rfc822part == st'.rfc822part && previousfn == st'.previousfn && rfc822next == st'.rfc822next
  {
    rfc822part, previousfn, rfc822next := part, prev, next;
    var name := HeaderName(e);
    if name.Some? {
      var lhs := Lower(name.value);
      previousfn := "";
      if lhs in env.headerFields {
        previousfn := lhs;
        rfc822part := rfc822part + e + "\n";
      }
    } else if StartsWithSpace(e) {
      if previousfn !in rfc822next && previousfn in env.longFields {
        rfc822part := rfc822part + e + "\n";
      }
    } else if previousfn in env.longFields && e == "" {
      rfc822next := rfc822next + {previousfn};
    }
  }

  /** Lines 225-252 on the loop's variables: what `ReadConnLine` does to them. */
  method ConnLine(env: Env, c: ConnHeader, n: nat, e: string, ghost st: ScanState)
    returns (connheader: ConnHeader, connvalues: nat)
    requires c == st.conn && n == st.connvalues
    ensures var st' := ReadConnLine(env, st, e);
            connheader == st'.conn && connvalues == st'.connvalues
  {
    connheader, connvalues := c, n;
    var to, subject, date := IndentedField(e, "To:"), IndentedField(e, "Subject:"), env.sentDate(e);
    if to.Some? {
      if |connheader.to| == 0 {
        connheader := connheader.(to := to.value);
        connvalues := connvalues + 1;
      }
    } else if subject.Some? {
      if |connheader.subject| == 0 {
        connheader := connheader.(subject := subject.value);
        connvalues := connvalues + 1;
      }
    } else if date.Some? {
      if |connheader.date| == 0 {
        connheader := connheader.(date := date.value);
        connvalues := connvalues + 1;
      }
    }
  }

  /**
   * Lines 189-223 on the loop's variables: the last record of `dscontents`
   * is updated, or a new one started, as `ReadRecipientLine` says.
   */
  method RecipientLine(env: Env, ds: seq<Record>, n: nat, e: string, ghost st: ScanState)
    returns (dscontents: seq<Record>, recipients: nat, statuspart: bool)
    requires ds == RecordsOf(st) && n == st.recipients && !st.statuspart
    ensures var st' := ReadRecipientLine(env, st, e);
            dscontents == RecordsOf(st') && recipients == st'.recipients && statuspart == st'.statuspart
  {
    dscontents, recipients, statuspart := ds, n, false;
    var v := dscontents[|dscontents| - 1];
    assert v == st.current && dscontents[..|dscontents| - 1] == st.done;
    var address := env.recipientAddress(e);
    var vendorText := MsexchLine(e);
    if address.Some? {
      if v.recipient.Some? {
        dscontents := dscontents + [Fresh()];
        v := Fresh();
      }
      v := v.(recipient := Some(address.value), msexch := Some(false));
      recipients := recipients + 1;
    } else if vendorText.Some? {
      v := v.(diagnosis := Some(v.diagnosis.GetOr("") + vendorText.value));
    } else if v.msexch != Some(true) {
      if v.diagnosis.Some? && IsMsexchText(v.diagnosis.value) {
        v := v.(msexch := Some(true), diagnosis := Some(v.diagnosis.value + " " + e));
        statuspart := true;
      } else {
        v := v.(alterrors := Some(v.alterrors.GetOr("") + " " + e));
      }
    }
    dscontents := dscontents[..|dscontents| - 1] + [v];
  }
}
