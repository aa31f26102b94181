/**
 * The format detector at the top of `scan`: decides from the bounce's own
 * headers whether Microsoft Exchange produced it.
 */
module Detector {
  import opened Wrappers
  import opened Text
  import opened Patterns

  /** The headers `scan` reads from `mhead`; `received` lists every Received header. */
  datatype MailHeader = MailHeader(
    xMsEmbeddedReport: Option<string>,
    xMailer: Option<string>,
    xMimeOle: Option<string>,
    received: seq<string>)

  /** The `mhead['received'].each` search, from index `i` on. */
  function AnyReceivedFrom(received: seq<string>, i: nat): (found: bool)
    requires i <= |received|
    ensures found <==> exists k | i <= k < |received| ::
                         MatchesPattern(received[k], Re0At(Symbol("received")))
    decreases |received| - i
  {
    if i == |received| then false
    else if MatchesPattern(received[i], Re0At(Symbol("received"))) then true
    else AnyReceivedFrom(received, i + 1)
  }

  /**
   * The `catch :EXCHANGE_OR_NOT` block: each rule is tried in turn and the
   * first match ends the search.  The X-MimeOLE rule looks `Re0` up with the
   * String key `'x-mimeole'`, which is not one of its keys.
   */
  function Detect(h: MailHeader): bool {
    if h.xMsEmbeddedReport.Some? then true
    else if h.xMailer.Some? && MatchesPattern(h.xMailer.value, Re0At(Symbol("x-mailer"))) then true
    else if h.xMimeOle.Some? && MatchesPattern(h.xMimeOle.value, Re0At(Str("x-mimeole"))) then true
    else if |h.received| == 0 then false
    else AnyReceivedFrom(h.received, 0)
  }

  /**
   * The message is taken for an Exchange bounce exactly when it carries an
   * X-MS-Embedded-Report header, an X-Mailer banner of Exchange, or a
   * Received header stamped by Internet Mail Service.
   */
  lemma DetectIff(h: MailHeader)
    ensures Detect(h) <==>
              || h.xMsEmbeddedReport.Some?
              || (h.xMailer.Some? && IsXMailerBanner(h.xMailer.value))
              || exists k | 0 <= k < |h.received| :: IsImsReceived(h.received[k])
  {
    assert Re0At(Str("x-mimeole")).None?;
    assert Re0At(Symbol("x-mailer")) == Some(XMailerPattern);
    assert Re0At(Symbol("received")) == Some(ReceivedPattern);
  }

  /** The X-MimeOLE header never changes the verdict, whatever it holds. */
  lemma MimeOleIgnored(h: MailHeader, v: Option<string>)
    ensures Detect(h.(xMimeOle := v)) == Detect(h)
  {
    DetectIff(h);
    DetectIff(h.(xMimeOle := v));
  }

  /** An Exchange X-MimeOLE banner alone is not enough. */
  lemma MimeOleBannerAloneRejected()
    ensures IsMimeOleBanner("Produced By Microsoft Exchange V6.5")
    ensures !Detect(MailHeader(None, None, Some("Produced By Microsoft Exchange V6.5"), []))
  {
    var s := "Produced By Microsoft Exchange V6.5";
    assert s[..30] == "Produced By Microsoft Exchange";
  }

  /** A bounce sent through Internet Mail Service 5.5.2232.9 is recognised by its X-Mailer. */
  lemma ImsMailerAccepted(h: MailHeader)
    requires h.xMailer == Some("Internet Mail Service (5.5.2232.9)")
    ensures Detect(h)
  {
    assert IsVersion("5.5.2232.9");
    ImsXMailerRecognised("5.5.2232.9");
    assert ImsBanner + "5.5.2232.9" + ")" == "Internet Mail Service (5.5.2232.9)";
    DetectIff(h);
  }
}
