/**
 * `Sisimai::MTA::Exchange.scan` (lines 76-311 of lib/sisimai/mta/exchange.rb):
 * detection, the walk over the body and the finishing pass, end to end.
 */
module Exchange {
  import opened Wrappers
  import opened Text
  import opened Collaborators
  import opened Patterns
  import opened Detector
  import opened DeliveryStatus
  import opened Body
  import opened BodyProperties
  import opened Normalizer
  import opened Accessors

  /** The hash `scan` returns: the finished records and the original-header text. */
  datatype Parsed = Parsed(ds: seq<Record>, rfc822: string)

  /** Lines 304-309: the header text written when none of the original was captured. */
  function Stub(c: ConnHeader): string {
    "From: " + c.to + "\nDate: " + c.date + "\nSubject: " + c.subject + "\n"
  }

  /** The three `sprintf` appends of lines 306-308. */
  method StubOnto(part: string, c: ConnHeader) returns (r: string)
    requires part == ""
    ensures r == Stub(c)
  {
    r := part;
    r := r + "From: " + c.to + "\n";
    r := r + "Date: " + c.date + "\n";
    r := r + "Subject: " + c.subject + "\n";
    assert r == part + Stub(c);
  }

  /** What `scan` returns; None stands for nil. */
  function ScanSpec(env: Env, mhead: Option<MailHeader>, mbody: Option<string>): Option<Parsed> {
    if mhead.None? || mbody.None? || !Detect(mhead.value) then None
    else
      var st := Run(env, Initial(), SplitLines(mbody.value));
      if st.recipients == 0 then None
      else
        Some(Parsed(FinalizeAll(env, mhead.value.received, RecordsOf(st)),
                    if |st.rfc822part| == 0 then Stub(st.conn) else st.rfc822part))
  }

  /** `scan`, in the order of the source. */
  method Scan(env: Env, mhead: Option<MailHeader>, mbody: Option<string>) returns (result: Option<Parsed>)
    ensures result == ScanSpec(env, mhead, mbody)
  {
    if mhead.None? || mbody.None? {
      return None;
    }
    if !Detect(mhead.value) {
      return None;
    }
    var hasdivided := SplitLines(mbody.value);
    var dscontents, rfc822part, connheader, recipients := ParseBody(env, hasdivided);
    ghost var st := Run(env, Initial(), hasdivided);
    if recipients == 0 {
      return None;
    }
    ghost var parsed := dscontents;
    dscontents := FinalizeRecords(env, mhead.value.received, dscontents);
    assert dscontents == FinalizeAll(env, mhead.value.received, parsed);
    if |rfc822part| == 0 {
      rfc822part := StubOnto(rfc822part, connheader);
    }
    assert rfc822part == if |st.rfc822part| == 0 then Stub(st.conn) else st.rfc822part;
    result := Some(Parsed(dscontents, rfc822part));
  }

  // ------------------------------------------------------------- properties

  /**
   * `scan` returns nil unless both arguments are given and the message
   * carries X-MS-Embedded-Report, an Exchange X-Mailer banner or a Received
   * header stamped by Internet Mail Service.
   */
  lemma ScanNeedsDetection(env: Env, mhead: Option<MailHeader>, mbody: Option<string>)
    ensures ScanSpec(env, mhead, mbody).Some? ==>
              && mhead.Some? && mbody.Some?
              && (|| mhead.value.xMsEmbeddedReport.Some?
                  || (mhead.value.xMailer.Some? && IsXMailerBanner(mhead.value.xMailer.value))
                  || exists k | 0 <= k < |mhead.value.received| :: IsImsReceived(mhead.value.received[k]))
  {
    if mhead.Some? {
      DetectIff(mhead.value);
    }
  }

  /** The X-MimeOLE header never changes what `scan` returns. */
  lemma ScanIgnoresMimeOle(env: Env, h: MailHeader, v: Option<string>, mbody: Option<string>)
    ensures ScanSpec(env, Some(h.(xMimeOle := v)), mbody) == ScanSpec(env, Some(h), mbody)
  {
    MimeOleIgnored(h, v);
  }

  /**
   * Once detection succeeds, `scan` returns a result exactly when the body
   * has at least one recipient line.
   */
  lemma ScanNeedsRecipients(env: Env, h: MailHeader, body: string)
    requires Detect(h)
    ensures ScanSpec(env, Some(h), Some(body)).Some? <==>
              |AddressTrail(env, Initial(), SplitLines(body))| > 0
  {
    RunAddresses(env, Initial(), SplitLines(body));
  }

  /**
   * The records returned are one per recipient line, in line order, each
   * with that line's address; every one is finished: no field nil, no
   * `msexch`, agent Exchange and spec SMTP.
   */
  lemma ScanRecords(env: Env, h: MailHeader, body: string)
    requires ScanSpec(env, Some(h), Some(body)).Some?
    ensures var ds := ScanSpec(env, Some(h), Some(body)).value.ds;
            var trail := AddressTrail(env, Initial(), SplitLines(body));
            && |ds| == |trail| == Run(env, Initial(), SplitLines(body)).recipients
            && forall k | 0 <= k < |ds| :: ds[k].recipient == Some(trail[k])
    ensures var ds := ScanSpec(env, Some(h), Some(body)).value.ds;
            forall k | 0 <= k < |ds| ::
              && ds[k].diagnosis.Some? && ds[k].reason.Some? && ds[k].status.Some?
              && ds[k].action.Some? && ds[k].lhost.Some? && ds[k].rhost.Some?
              && ds[k].msexch.None? && ds[k].agent == Some(SmtpAgent()) && ds[k].spec == Some("SMTP")
  {
    var lines := SplitLines(body);
    var st := Run(env, Initial(), lines);
    RecipientsInLineOrder(env, lines);
    RecordCount(env, lines);
    var ds := ScanSpec(env, Some(h), Some(body)).value.ds;
    forall k | 0 <= k < |ds|
      ensures ds[k].recipient == RecordsOf(st)[k].recipient
      ensures && ds[k].diagnosis.Some? && ds[k].reason.Some? && ds[k].status.Some?
              && ds[k].action.Some? && ds[k].lhost.Some? && ds[k].rhost.Some?
              && ds[k].msexch.None? && ds[k].agent == Some(SmtpAgent()) && ds[k].spec == Some("SMTP")
    {
      FinishedFields(env, h.received, RecordsOf(st)[k]);
      BodyRecordFields(env, h.received, RecordsOf(st)[k]);
    }
  }

  /**
   * The header text returned is what was captured after the
   * `message/rfc822` marker; when nothing was, and always when there is no
   * marker, it is exactly `From: <to>\nDate: <date>\nSubject: <subject>\n`
   * from the header echo.
   */
  lemma ScanHeaderText(env: Env, h: MailHeader, body: string)
    requires ScanSpec(env, Some(h), Some(body)).Some?
    ensures var st := Run(env, Initial(), SplitLines(body));
            var text := ScanSpec(env, Some(h), Some(body)).value.rfc822;
            && (st.rfc822part != "" ==> text == st.rfc822part)
            && (st.rfc822part == "" ==> text == Stub(st.conn))
            && (!st.inMessageRfc822 ==> text == Stub(st.conn))
  {
    InitialInv();
    RunInv(env, Initial(), SplitLines(body));
  }
}
