/**
 * The finishing pass over the records (lines 260-302 of
 * lib/sisimai/mta/exchange.rb): host names, the vendor error code, the
 * fallback text and the derived fields.
 */
module Normalizer {
  import opened Wrappers
  import opened Text
  import opened Collaborators
  import opened Patterns
  import opened ErrorCodes
  import opened DeliveryStatus
  import opened Accessors

  /** `Array#shift`: the first host, nil for an empty list. */
  function FirstHost(hosts: seq<string>): Option<string> {
    if hosts == [] then None else Some(hosts[0])
  }

  /** `Array#pop`: the last host, nil for an empty list. */
  function LastHost(hosts: seq<string>): Option<string> {
    if hosts == [] then None else Some(hosts[|hosts| - 1])
  }

  /** Lines 261-267: empty host fields are taken from the first and the last Received header. */
  function FillHosts(env: Env, received: seq<string>, e: Record): Record {
    if received == [] then e
    else
      e.(lhost := if e.lhost.GetOr("") == "" then FirstHost(env.receivedHosts(received[0])) else e.lhost,
         rhost := if e.rhost.GetOr("") == "" then LastHost(env.receivedHosts(received[|received| - 1]))
                  else e.rhost)
  }

  /** Line 268, with an unset diagnosis swept as the empty text. */
  function SweepDiagnosis(env: Env, e: Record): Record {
    e.(diagnosis := Some(env.sweep(e.diagnosis.GetOr(""))))
  }

  /** Lines 276-283: the reason and pseudo status a code leads to, when a category lists it. */
  function WithReason(env: Env, e: Record, code: string): Record {
    var reason := CategoryOf(code);
    if reason.None? then e
    else
      var pseudostatus := env.statusCode(reason.value);
      e.(reason := reason, status := if |pseudostatus| > 0 then Some(pseudostatus) else e.status)
  }

  /** Lines 270-285: a vendor code in the diagnosis sets the reason; its message becomes the diagnosis. */
  function LookUpCode(env: Env, e: Record): Record {
    var cv := ExtractCode(e.diagnosis.GetOr(""));
    if cv.None? then e
    else WithReason(env, e, cv.value.code).(diagnosis := Some(cv.value.message))
  }

  /** Lines 287-295: without a reason, the collected `alterrors` text leads the diagnosis. */
  function Fallback(env: Env, e: Record): Record {
    if e.reason.None? && e.alterrors.Some?
    then e.(diagnosis := Some(env.sweep(e.alterrors.value + " " + e.diagnosis.GetOr(""))), alterrors := None)
    else e
  }

  /** `\A[45]`: a status of a permanent or a temporary failure. */
  predicate FailedClass(s: string) {
    |s| > 0 && (s[0] == '4' || s[0] == '5')
  }

  predicate FailedStatus(status: Option<string>) {
    status.Some? && FailedClass(status.value)
  }

  /** Lines 297-300. */
  function Derive(e: Record): Record {
    e.(spec := Some(if e.reason == Some("mailererror") then "X-UNIX" else "SMTP"),
       action := if FailedStatus(e.status) then Some("failed") else e.action,
       agent := Some(SmtpAgent()),
       msexch := None)
  }

  /** `||= ''`. */
  function Blank(field: Option<string>): Option<string> {
    Some(field.GetOr(""))
  }

  /**
   * Line 301: every field still nil becomes the empty text; `alterrors`
   * and `msexch` are keys that exist only while they hold a value.
   */
  function FillBlanks(e: Record): Record {
    e.(recipient := Blank(e.recipient), diagnosis := Blank(e.diagnosis), reason := Blank(e.reason),
       status := Blank(e.status), action := Blank(e.action), spec := Blank(e.spec),
       lhost := Blank(e.lhost), rhost := Blank(e.rhost), agent := Blank(e.agent))
  }

  /** Everything the pass does to one record, in the order of the source. */
  function Finalize(env: Env, received: seq<string>, e: Record): Record {
    FillBlanks(Derive(Fallback(env, LookUpCode(env, SweepDiagnosis(env, FillHosts(env, received, e))))))
  }

  /** The pass over the whole list. */
  function FinalizeAll(env: Env, received: seq<string>, rs: seq<Record>): seq<Record> {
    seq(|rs|, k requires 0 <= k < |rs| => Finalize(env, received, rs[k]))
  }

  /**
   * The body of `dscontents.map`, rewriting the record step by step as the
   * source does, with the `ErrorCodeTable.each_key` search as a loop.
   */
  method FinalizeRecord(env: Env, received: seq<string>, e0: Record) returns (e: Record)
    ensures e == Finalize(env, received, e0)
  {
    e := e0;
    if |received| > 0 {
      e := e.(lhost := Some(e.lhost.GetOr("")), rhost := Some(e.rhost.GetOr("")));
      if e.lhost.value == "" {
        e := e.(lhost := FirstHost(env.receivedHosts(received[0])));
      }
      if e.rhost.value == "" {
        e := e.(rhost := LastHost(env.receivedHosts(received[|received| - 1])));
      }
    }
    assert e == FillHosts(env, received, e0);
    e := e.(diagnosis := Some(env.sweep(e.diagnosis.GetOr(""))));
    ghost var swept := e;
    var cv := ExtractCode(e.diagnosis.value);
    if cv.Some? {
      var capturedcode := cv.value.code;
      e := SearchTable(env, e, capturedcode);
      assert e == WithReason(env, swept, capturedcode);
      e := e.(diagnosis := Some(cv.value.message));
    }
    assert e == LookUpCode(env, swept);
    ghost var looked := e;
    if e.reason.None? && e.alterrors.Some? {
      e := e.(diagnosis := Some(e.alterrors.value + " " + e.diagnosis.GetOr("")));
      e := e.(diagnosis := Some(env.sweep(e.diagnosis.value)));
      e := e.(alterrors := None);
    }
    assert e == Fallback(env, looked);
    ghost var fallen := e;
    e := e.(spec := Some(if e.reason == Some("mailererror") then "X-UNIX" else "SMTP"));
    if FailedStatus(e.status) {
      e := e.(action := Some("failed"));
    }
    e := e.(agent := Some(SmtpAgent()), msexch := None);
    assert e == Derive(fallen);
    e := FillBlanks(e);
  }

  /**
   * `ErrorCodeTable.each_key`: the first category listing the code gives
   * the reason, and its pseudo status when that is not empty.
   */
  method SearchTable(env: Env, e0: Record, capturedcode: string) returns (e: Record)
    ensures e == WithReason(env, e0, capturedcode)
  {
    e := e0;
    var i := 0;
    while i < |ErrorCodeTable|
      invariant i <= |ErrorCodeTable|
      invariant CategoryOf(capturedcode) == FindCategory(capturedcode, i)
      invariant e == e0
    {
      if capturedcode in ErrorCodeTable[i].codes {
        var r := ErrorCodeTable[i].reason;
        e := e.(reason := Some(r));
        var pseudostatus := env.statusCode(r);
        if |pseudostatus| > 0 {
          e := e.(status := Some(pseudostatus));
        }
        break;
      }
      i := i + 1;
    }
  }

  /** `dscontents.map`: every record is rewritten in place, in list order. */
  method FinalizeRecords(env: Env, received: seq<string>, ds: seq<Record>) returns (out: seq<Record>)
    ensures |out| == |ds|
    ensures forall k | 0 <= k < |ds| :: out[k] == Finalize(env, received, ds[k])
  {
    out := ds;
    var i := 0;
    while i < |out|
      invariant i <= |out| == |ds|
      invariant forall k | 0 <= k < i :: out[k] == Finalize(env, received, ds[k])
      invariant forall k | i <= k < |ds| :: out[k] == ds[k]
    {
      var r := FinalizeRecord(env, received, out[i]);
      out := out[i := r];
      i := i + 1;
    }
  }

  // ------------------------------------------------------------- properties

  /**
   * Every finished record: no field is nil, `msexch` is gone, the agent is
   * Exchange, `spec` is X-UNIX exactly for `mailererror` and SMTP otherwise,
   * the recipient is untouched and non-empty host names are kept.
   */
  lemma FinishedFields(env: Env, received: seq<string>, e: Record)
    ensures var r := Finalize(env, received, e);
            && r.recipient.Some? && r.diagnosis.Some? && r.reason.Some? && r.status.Some?
            && r.action.Some? && r.spec.Some? && r.lhost.Some? && r.rhost.Some?
            && r.msexch.None? && r.agent == Some(SmtpAgent())
    ensures var r := Finalize(env, received, e);
            && (r.spec == Some("X-UNIX") <==> r.reason == Some("mailererror"))
            && (r.spec == Some("SMTP") <==> r.reason != Some("mailererror"))
    ensures Finalize(env, received, e).recipient == Blank(e.recipient)
    ensures e.lhost.GetOr("") != "" ==> Finalize(env, received, e).lhost == e.lhost
    ensures e.rhost.GetOr("") != "" ==> Finalize(env, received, e).rhost == e.rhost
  {
  }

  /**
   * Finishing a finished record again changes nothing, provided `sweep`
   * leaves its diagnosis as it is and that diagnosis carries no vendor code.
   */
  lemma FinalizeIdempotent(env: Env, received: seq<string>, e: Record)
    requires env.sweep(Finalize(env, received, e).diagnosis.GetOr("")) == Finalize(env, received, e).diagnosis.GetOr("")
    requires ExtractCode(Finalize(env, received, e).diagnosis.GetOr("")).None?
    ensures Finalize(env, received, Finalize(env, received, e)) == Finalize(env, received, e)
  {
    var r := Finalize(env, received, e);
    FinishedFields(env, received, e);
    var h := FillHosts(env, received, r);
    assert Blank(h.lhost) == r.lhost && Blank(h.rhost) == r.rhost;
    assert SweepDiagnosis(env, h) == h;
    assert LookUpCode(env, h) == h;
    assert Fallback(env, h) == h;
    assert FillBlanks(Derive(h)) == r;
  }

  /** The reason the code lookup settles on is always a category of the table. */
  lemma WithReasonFromTable(env: Env, e: Record, code: string)
    requires e.reason.None?
    ensures var r := WithReason(env, e, code).reason;
            r.Some? ==> exists j | 0 <= j < |ErrorCodeTable| ::
                          r.value == ErrorCodeTable[j].reason && code in ErrorCodeTable[j].codes
  {
  }

  /**
   * For a record of the body: `spec` is always SMTP, `action` is `failed`
   * exactly when the status starts with 4 or 5 and empty otherwise, and the
   * host names come from the first and last Received header when there is one.
   */
  lemma BodyRecordFields(env: Env, received: seq<string>, e: Record)
    requires Unfinished(e)
    ensures var r := Finalize(env, received, e);
            && r.spec == Some("SMTP")
            && (r.action == Some("failed") <==> FailedClass(r.status.value))
            && (r.action != Some("failed") ==> r.action == Some(""))
    ensures var r := Finalize(env, received, e);
            received == [] ==> r.lhost == Some("") && r.rhost == Some("")
    ensures var r := Finalize(env, received, e);
            received != [] ==>
              && r.lhost == Some(FirstHost(env.receivedHosts(received[0])).GetOr(""))
              && r.rhost == Some(LastHost(env.receivedHosts(received[|received| - 1])).GetOr(""))
  {
    var s := SweepDiagnosis(env, FillHosts(env, received, e));
    var cv := ExtractCode(s.diagnosis.GetOr(""));
    if cv.Some? {
      NoMailerError(cv.value.code);
    }
  }

  /**
   * A swept diagnosis carrying a vendor code: a listed code sets the reason
   * to its one category, the status to that category's pseudo status, and
   * the diagnosis to the message after the code, leaving `alterrors` as it
   * was; an unlisted code leaves the reason empty, and the message then
   * follows the `alterrors` text.
   */
  lemma CodeFound(env: Env, received: seq<string>, e: Record)
    requires Unfinished(e)
    requires ExtractCode(env.sweep(e.diagnosis.GetOr(""))).Some?
    ensures var c := ExtractCode(env.sweep(e.diagnosis.GetOr(""))).value;
            var r := Finalize(env, received, e);
            forall j | 0 <= j < |ErrorCodeTable| && c.code in ErrorCodeTable[j].codes ::
              && r.reason == Some(ErrorCodeTable[j].reason)
              && r.status == Some(env.statusCode(ErrorCodeTable[j].reason))
              && r.diagnosis == Some(c.message)
              && r.alterrors == e.alterrors
    ensures var c := ExtractCode(env.sweep(e.diagnosis.GetOr(""))).value;
            var r := Finalize(env, received, e);
            CategoryOf(c.code).None? ==>
              && r.reason == Some("") && r.status == Some("") && r.alterrors.None?
              && r.diagnosis == Some(if e.alterrors.Some? then env.sweep(e.alterrors.value + " " + c.message)
                                     else c.message)
  {
    var c := ExtractCode(env.sweep(e.diagnosis.GetOr(""))).value;
    var s := SweepDiagnosis(env, FillHosts(env, received, e));
    assert ExtractCode(s.diagnosis.GetOr("")) == Some(c);
    forall j | 0 <= j < |ErrorCodeTable| && c.code in ErrorCodeTable[j].codes
      ensures Finalize(env, received, e).reason == Some(ErrorCodeTable[j].reason)
      ensures Finalize(env, received, e).status == Some(env.statusCode(ErrorCodeTable[j].reason))
    {
      CategoryUnique(c.code, j);
    }
  }

  /**
   * A swept diagnosis without a vendor code: the reason and status stay
   * empty and the diagnosis is the swept text, after the `alterrors` text
   * when there is one.
   */
  lemma NoCode(env: Env, received: seq<string>, e: Record)
    requires Unfinished(e)
    requires ExtractCode(env.sweep(e.diagnosis.GetOr(""))).None?
    ensures var d := env.sweep(e.diagnosis.GetOr("")); var r := Finalize(env, received, e);
            && r.reason == Some("") && r.status == Some("") && r.action == Some("")
            && r.alterrors.None?
            && r.diagnosis == Some(if e.alterrors.Some? then env.sweep(e.alterrors.value + " " + d) else d)
  {
    var s := SweepDiagnosis(env, FillHosts(env, received, e));
    assert ExtractCode(s.diagnosis.GetOr("")).None?;
  }

  /**
   * A diagnosis that is a vendor line `MSEXCH:<text> (<code>) <message>`,
   * with a listed code, finishes with the code's category as its reason and
   * the message as its diagnosis.
   */
  lemma VendorLineFinished(env: Env, received: seq<string>, e: Record,
                           text: string, code: string, message: string, j: nat)
    requires Unfinished(e)
    requires |text| > 0 && NoNewline(text) && IsHexCode(code)
    requires NoNewline(message) && '(' !in message && (message == "" || !IsSpace(message[0]))
    requires e.diagnosis == Some(VendorLine(text, code, message))
    requires env.sweep(e.diagnosis.value) == e.diagnosis.value
    requires j < |ErrorCodeTable| && code in ErrorCodeTable[j].codes
    ensures Finalize(env, received, e).reason == Some(ErrorCodeTable[j].reason)
    ensures Finalize(env, received, e).status == Some(env.statusCode(ErrorCodeTable[j].reason))
    ensures Finalize(env, received, e).diagnosis == Some(message)
  {
    ExtractCodeOf(text, code, message);
    CodeFound(env, received, e);
  }

  /**
   * `MSEXCH:IMS:KIJITORA CAT:EXAMPLE:EXCHANGE 0 (000C05A6) Unknown Recipient`
   * gives the reason `userunknown` and the diagnosis `Unknown Recipient`.
   */
  lemma UnknownRecipientLine(env: Env, received: seq<string>, e: Record)
    requires Unfinished(e)
    requires e.diagnosis == Some(VendorLine("IMS:KIJITORA CAT:EXAMPLE:EXCHANGE 0", "000C05A6", "Unknown Recipient"))
    requires env.sweep(e.diagnosis.value) == e.diagnosis.value
    ensures Finalize(env, received, e).reason == Some("userunknown")
    ensures Finalize(env, received, e).diagnosis == Some("Unknown Recipient")
  {
    var text, code, message := "IMS:KIJITORA CAT:EXAMPLE:EXCHANGE 0", "000C05A6", "Unknown Recipient";
    assert NoNewline(text);
    assert IsHexCode(code);
    assert NoNewline(message) && '(' !in message;
    assert code in ErrorCodeTable[1].codes;
    VendorLineFinished(env, received, e, text, code, message, 1);
  }
}
