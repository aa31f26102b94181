/** What the walk over the body lines guarantees, proved about `Body.Step` and `Body.Run`. */
module BodyProperties {
  import opened Wrappers
  import opened Text
  import opened Collaborators
  import opened Patterns
  import opened DeliveryStatus
  import opened Body

  /** The loop is in the delivery-status part and reads recipient lines. */
  predicate RecipientMode(st: ScanState) {
    st.inDeliveryStatus && !st.inMessageRfc822 && !st.statuspart && st.connvalues == ConnKeys
  }

  /** The loop is in the delivery-status part and still reads the header echo. */
  predicate ConnMode(st: ScanState) {
    st.inDeliveryStatus && !st.inMessageRfc822 && !st.statuspart && st.connvalues != ConnKeys
  }

  /** A collected diagnosis is either unset or vendor text starting `MSEXCH:`. */
  predicate DiagnosisShape(r: Record) {
    r.diagnosis.None? || IsMsexchText(r.diagnosis.value)
  }

  /** What holds of the loop variables after every line. */
  predicate Inv(st: ScanState) {
    && st.connvalues == FilledSlots(st.conn)
    && (st.recipients == 0 ==> st.done == [] && st.current.recipient.None?)
    && (st.recipients > 0 ==>
          && |st.done| + 1 == st.recipients
          && st.current.recipient.Some?
          && forall r | r in st.done :: r.recipient.Some?)
    && (forall r | r in st.done :: DiagnosisShape(r))
    && DiagnosisShape(st.current)
    && (forall r | r in st.done :: r.msexch == Some(true) ==> st.statuspart)
    && (st.current.msexch == Some(true) ==> st.statuspart)
    && (forall r | r in st.done :: Unfinished(r))
    && Unfinished(st.current)
    && (!st.inMessageRfc822 ==> st.rfc822part == "" && st.previousfn == "" && st.rfc822next == {})
  }

  lemma MsexchTextExtends(d: string, x: string)
    requires IsMsexchText(d)
    ensures IsMsexchText(d + x)
  {
    assert (d + x)[..7] == d[..7];
  }

  lemma InitialInv()
    ensures Inv(Initial())
  {
  }

  /** The invariant does not depend on the capture fields once the marker is seen. */
  lemma InvCaptureFrame(st: ScanState, n: ScanState)
    requires Inv(st) && st.inMessageRfc822
    requires n == st.(rfc822part := n.rfc822part, previousfn := n.previousfn, rfc822next := n.rfc822next)
    ensures Inv(n)
  {
  }

  lemma CaptureInv(env: Env, st: ScanState, e: string)
    requires Inv(st) && st.inMessageRfc822
    ensures Inv(CaptureHeader(env, st, e))
  {
    var n := CaptureHeader(env, st, e);
    if HeaderName(e).Some? {
      assert n == st.(rfc822part := n.rfc822part, previousfn := n.previousfn);
    } else if StartsWithSpace(e) {
      assert n == st.(rfc822part := n.rfc822part);
    } else {
      assert n == st.(rfc822next := n.rfc822next);
    }
    InvCaptureFrame(st, n);
  }

  lemma ConnLineInv(env: Env, st: ScanState, e: string)
    requires Inv(st) && st.connvalues != ConnKeys
    ensures Inv(ReadConnLine(env, st, e))
  {
  }

  lemma RecipientLineInv(env: Env, st: ScanState, e: string)
    requires Inv(st) && !st.statuspart && !st.inMessageRfc822
    ensures Inv(ReadRecipientLine(env, st, e))
  {
    var v := st.current;
    if env.recipientAddress(e).None? {
      var c := MsexchLine(e);
      if c.Some? {
        if v.diagnosis.Some? {
          MsexchTextExtends(v.diagnosis.value, c.value);
        }
      } else if v.msexch != Some(true) && v.diagnosis.Some? && IsMsexchText(v.diagnosis.value) {
        MsexchTextExtends(v.diagnosis.value, " " + e);
        assert v.diagnosis.value + " " + e == v.diagnosis.value + (" " + e);
      }
    }
  }

  lemma StepInv(env: Env, st: ScanState, e: string)
    requires Inv(st)
    ensures Inv(Step(env, st, e))
  {
    if !st.inDeliveryStatus && !st.inMessageRfc822 && IsBeginMarker(e) {
      assert Step(env, st, e) == st.(inDeliveryStatus := true);
    } else if !st.inMessageRfc822 && IsRfc822Marker(e) {
      assert Step(env, st, e) == st.(inMessageRfc822 := true);
    } else if st.inMessageRfc822 {
      CaptureInv(env, st, e);
    } else if !st.inDeliveryStatus || st.statuspart {
    } else if st.connvalues == ConnKeys {
      RecipientLineInv(env, st, e);
    } else {
      ConnLineInv(env, st, e);
    }
  }

  /** The invariant holds after any sequence of lines from a state where it holds. */
  lemma {:induction false} RunInv(env: Env, st: ScanState, lines: seq<string>)
    requires Inv(st)
    ensures Inv(Run(env, st, lines))
    decreases |lines|
  {
    if lines != [] {
      RunInv(env, st, lines[..|lines| - 1]);
      StepInv(env, Run(env, st, lines[..|lines| - 1]), lines[|lines| - 1]);
    }
  }

  /** Running over `a + b` is running over `a`, then over `b`. */
  lemma {:induction false} RunAppend(env: Env, st: ScanState, a: seq<string>, b: seq<string>)
    ensures Run(env, st, a + b) == Run(env, Run(env, st, a), b)
    decreases |b|
  {
    if b == [] {
      assert a + b == a;
    } else {
      assert (a + b)[..|a + b| - 1] == a + b[..|b| - 1];
      assert (a + b)[|a + b| - 1] == b[|b| - 1];
      RunAppend(env, st, a, b[..|b| - 1]);
    }
  }

  /**
   * After the whole body, `connvalues` counts the filled `connheader`
   * slots, so it never exceeds three.
   */
  lemma ConnCounter(env: Env, lines: seq<string>)
    ensures Run(env, Initial(), lines).connvalues == FilledSlots(Run(env, Initial(), lines).conn)
    ensures Run(env, Initial(), lines).connvalues <= ConnKeys
  {
    InitialInv();
    RunInv(env, Initial(), lines);
  }

  /**
   * After the whole body there is one record per recipient line, each with
   * its address; with no recipient line there is the one fresh record.
   */
  lemma RecordCount(env: Env, lines: seq<string>)
    ensures var st := Run(env, Initial(), lines);
            st.recipients > 0 ==> |RecordsOf(st)| == st.recipients
    ensures var st := Run(env, Initial(), lines);
            st.recipients > 0 ==> forall k | 0 <= k < |RecordsOf(st)| :: RecordsOf(st)[k].recipient.Some?
    ensures var st := Run(env, Initial(), lines);
            st.recipients == 0 ==> |RecordsOf(st)| == 1 && st.current.recipient.None?
    ensures var st := Run(env, Initial(), lines);
            forall k | 0 <= k < |RecordsOf(st)| :: Unfinished(RecordsOf(st)[k])
  {
    InitialInv();
    RunInv(env, Initial(), lines);
    var st := Run(env, Initial(), lines);
    forall k | 0 <= k < |RecordsOf(st)|
      ensures st.recipients > 0 ==> RecordsOf(st)[k].recipient.Some?
      ensures Unfinished(RecordsOf(st)[k])
    {
      if k < |st.done| {
        assert RecordsOf(st)[k] in st.done;
      }
    }
  }

  // ------------------------------------------------------ connheader slots

  /**
   * A line changes a `connheader` slot only while the slot is empty and the
   * loop reads the header echo, and then the slot takes the line's value.
   */
  lemma StepSlots(env: Env, st: ScanState, e: string)
    ensures var n := Step(env, st, e).conn;
            n.to == st.conn.to
            || (st.conn.to == "" && ConnMode(st) && IndentedField(e, "To:") == Some(n.to))
    ensures var n := Step(env, st, e).conn;
            n.subject == st.conn.subject
            || (st.conn.subject == "" && ConnMode(st) && IndentedField(e, "To:").None?
                && IndentedField(e, "Subject:") == Some(n.subject))
    ensures var n := Step(env, st, e).conn;
            n.date == st.conn.date
            || (st.conn.date == "" && ConnMode(st) && IndentedField(e, "To:").None?
                && IndentedField(e, "Subject:").None? && env.sentDate(e) == Some(n.date))
  {
  }

  /** A filled `connheader` slot keeps its value to the end. */
  lemma {:induction false} RunKeepsFilledSlots(env: Env, st: ScanState, lines: seq<string>)
    ensures |st.conn.to| > 0 ==> Run(env, st, lines).conn.to == st.conn.to
    ensures |st.conn.subject| > 0 ==> Run(env, st, lines).conn.subject == st.conn.subject
    ensures |st.conn.date| > 0 ==> Run(env, st, lines).conn.date == st.conn.date
    decreases |lines|
  {
    if lines != [] {
      RunKeepsFilledSlots(env, st, lines[..|lines| - 1]);
      StepSlots(env, Run(env, st, lines[..|lines| - 1]), lines[|lines| - 1]);
    }
  }

  /** An indented field line is never one of the two part markers. */
  lemma IndentedNotMarker(e: string, tag: string)
    requires |tag| > 0 && !IsSpace(tag[0])
    requires IndentedField(e, tag).Some?
    ensures !IsRfc822Marker(e) && !IsBeginMarker(e)
  {
    assert IsSpace(e[0]);
  }

  /** The run over `lines`, split at line `k`. */
  lemma RunSplitAt(env: Env, st: ScanState, lines: seq<string>, k: nat)
    requires k < |lines|
    ensures Run(env, st, lines) == Run(env, Step(env, Run(env, st, lines[..k]), lines[k]), lines[k + 1..])
  {
    var a, b, c := lines[..k], [lines[k]], lines[k + 1..];
    assert a + (b + c) == lines;
    RunAppend(env, st, a, b + c);
    var before := Run(env, st, a);
    RunAppend(env, before, b, c);
    RunOne(env, before, lines[k]);
  }

  lemma RunOne(env: Env, st: ScanState, e: string)
    ensures Run(env, st, [e]) == Step(env, st, e)
  {
    assert [e][..0] == [];
  }

  /**
   * Until the `Your message` or the `message/rfc822` marker is read, no line
   * changes anything: the loop skips every line before them.
   */
  lemma {:induction false} NothingBeforeMarkers(env: Env, st: ScanState, lines: seq<string>)
    requires !st.inDeliveryStatus && !st.inMessageRfc822
    requires forall k | 0 <= k < |lines| :: !IsBeginMarker(lines[k]) && !IsRfc822Marker(lines[k])
    ensures Run(env, st, lines) == st
    decreases |lines|
  {
    if lines != [] {
      NothingBeforeMarkers(env, st, lines[..|lines| - 1]);
    }
  }

  /** While the header echo is read, a line that is no marker goes to `ReadConnLine`. */
  lemma ConnStep(env: Env, st: ScanState, e: string)
    requires ConnMode(st) && !IsRfc822Marker(e)
    ensures Step(env, st, e) == ReadConnLine(env, st, e)
  {
  }

  /**
   * First occurrence wins: the first `To:` line read while the slot is
   * empty gives the value the slot ends with.
   */
  lemma FirstToWins(env: Env, lines: seq<string>, k: nat)
    requires k < |lines|
    requires ConnMode(Run(env, Initial(), lines[..k]))
    requires Run(env, Initial(), lines[..k]).conn.to == ""
    requires IndentedField(lines[k], "To:").Some?
    ensures Run(env, Initial(), lines).conn.to == IndentedField(lines[k], "To:").value
  {
    var before := Run(env, Initial(), lines[..k]);
    IndentedNotMarker(lines[k], "To:");
    ConnStep(env, before, lines[k]);
    var after := Step(env, before, lines[k]);
    assert after.conn.to == IndentedField(lines[k], "To:").value;
    RunKeepsFilledSlots(env, after, lines[k + 1..]);
    RunSplitAt(env, Initial(), lines, k);
  }

  /** A `Subject:` echo line is never a `To:` echo line. */
  lemma SubjectIsNotTo(e: string)
    requires IndentedField(e, "Subject:").Some?
    ensures IndentedField(e, "To:").None?
  {
    var a := SpanSpace(e, 0);
    assert e[a..][0] == 'S';
  }

  /** The same for `Subject:`. */
  lemma FirstSubjectWins(env: Env, lines: seq<string>, k: nat)
    requires k < |lines|
    requires ConnMode(Run(env, Initial(), lines[..k]))
    requires Run(env, Initial(), lines[..k]).conn.subject == ""
    requires IndentedField(lines[k], "Subject:").Some?
    ensures Run(env, Initial(), lines).conn.subject == IndentedField(lines[k], "Subject:").value
  {
    var before := Run(env, Initial(), lines[..k]);
    SubjectIsNotTo(lines[k]);
    IndentedNotMarker(lines[k], "Subject:");
    ConnStep(env, before, lines[k]);
    var after := Step(env, before, lines[k]);
    assert after.conn.subject == IndentedField(lines[k], "Subject:").value;
    RunKeepsFilledSlots(env, after, lines[k + 1..]);
    RunSplitAt(env, Initial(), lines, k);
  }

  /** The same for the `Sent:` date. */
  lemma FirstDateWins(env: Env, lines: seq<string>, k: nat)
    requires k < |lines|
    requires ConnMode(Run(env, Initial(), lines[..k]))
    requires Run(env, Initial(), lines[..k]).conn.date == ""
    requires IndentedField(lines[k], "To:").None? && IndentedField(lines[k], "Subject:").None?
    requires env.sentDate(lines[k]).Some? && !IsRfc822Marker(lines[k])
    ensures Run(env, Initial(), lines).conn.date == env.sentDate(lines[k]).value
  {
    var before := Run(env, Initial(), lines[..k]);
    ConnStep(env, before, lines[k]);
    var after := Step(env, before, lines[k]);
    assert after.conn.date == env.sentDate(lines[k]).value;
    RunKeepsFilledSlots(env, after, lines[k + 1..]);
    RunSplitAt(env, Initial(), lines, k);
  }

  // ------------------------------------------------------------ recipients

  /** Records change only while the loop reads recipient lines. */
  lemma StepRecordsNeedConn(env: Env, st: ScanState, e: string)
    requires !RecipientMode(st) || IsRfc822Marker(e)
    ensures Step(env, st, e).done == st.done && Step(env, st, e).current == st.current
    ensures Step(env, st, e).recipients == st.recipients
  {
  }

  lemma AddressesSameRecipient(done: seq<Record>, v: Record, w: Record)
    requires v.recipient == w.recipient
    ensures Addresses(done + [v]) == Addresses(done + [w])
  {
    assert (done + [v])[..|done|] == done;
    assert (done + [w])[..|done|] == done;
  }

  /** The address a line contributes: its capture when it is a recipient line. */
  function LineAddress(env: Env, st: ScanState, e: string): seq<string> {
    if RecipientMode(st) && !IsRfc822Marker(e) && env.recipientAddress(e).Some?
    then [env.recipientAddress(e).value]
    else []
  }

  /** In the per-recipient part, a line with an address ends the current record or names it. */
  lemma RecipientStepRecords(env: Env, st: ScanState, e: string)
    requires RecipientMode(st) && !IsRfc822Marker(e)
    ensures var n := Step(env, st, e);
            var address := env.recipientAddress(e);
            && (address.Some? ==>
                  && n.done == (if st.current.recipient.Some? then st.done + [st.current] else st.done)
                  && n.current.recipient == address
                  && n.recipients == st.recipients + 1)
            && (address.None? ==>
                  n.done == st.done && n.current.recipient == st.current.recipient
                  && n.recipients == st.recipients)
  {
    assert Step(env, st, e) == ReadRecipientLine(env, st, e);
  }

  /** A recipient line appends its address to the record list, and nothing else does. */
  lemma StepAddresses(env: Env, st: ScanState, e: string)
    ensures Addresses(RecordsOf(Step(env, st, e))) == Addresses(RecordsOf(st)) + LineAddress(env, st, e)
    ensures Step(env, st, e).recipients == st.recipients + |LineAddress(env, st, e)|
  {
    var n := Step(env, st, e);
    if RecipientMode(st) && !IsRfc822Marker(e) {
      RecipientStepRecords(env, st, e);
      var v := st.current;
      if env.recipientAddress(e).Some? {
        if v.recipient.Some? {
          assert RecordsOf(n) == (st.done + [v]) + [n.current];
          assert (RecordsOf(n))[..|RecordsOf(n)| - 1] == RecordsOf(st);
        } else {
          assert RecordsOf(n)[..|st.done|] == st.done;
          assert RecordsOf(st)[..|st.done|] == st.done;
        }
      } else {
        AddressesSameRecipient(st.done, v, n.current);
      }
    } else {
      StepRecordsNeedConn(env, st, e);
    }
  }

  /** The addresses of the recipient lines among `lines`, in line order. */
  function AddressTrail(env: Env, st: ScanState, lines: seq<string>): seq<string>
    decreases |lines|
  {
    if lines == [] then []
    else
      AddressTrail(env, st, lines[..|lines| - 1])
        + LineAddress(env, Run(env, st, lines[..|lines| - 1]), lines[|lines| - 1])
  }

  /**
   * The records' addresses grow by exactly the recipient lines' addresses,
   * in line order, and the counter by their number.
   */
  lemma {:induction false} RunAddresses(env: Env, st: ScanState, lines: seq<string>)
    ensures Addresses(RecordsOf(Run(env, st, lines))) == Addresses(RecordsOf(st)) + AddressTrail(env, st, lines)
    ensures Run(env, st, lines).recipients == st.recipients + |AddressTrail(env, st, lines)|
    decreases |lines|
  {
    if lines != [] {
      RunAddresses(env, st, lines[..|lines| - 1]);
      StepAddresses(env, Run(env, st, lines[..|lines| - 1]), lines[|lines| - 1]);
    }
  }

  /**
   * After the whole body the records are, in order, one per recipient line
   * and carry exactly those lines' addresses.
   */
  lemma RecipientsInLineOrder(env: Env, lines: seq<string>)
    ensures var st := Run(env, Initial(), lines);
            st.recipients == |AddressTrail(env, Initial(), lines)|
    ensures var st := Run(env, Initial(), lines);
            st.recipients > 0 ==>
              && |RecordsOf(st)| == |AddressTrail(env, Initial(), lines)|
              && forall k | 0 <= k < |RecordsOf(st)| ::
                   RecordsOf(st)[k].recipient == Some(AddressTrail(env, Initial(), lines)[k])
  {
    var st := Run(env, Initial(), lines);
    var trail := AddressTrail(env, Initial(), lines);
    RunAddresses(env, Initial(), lines);
    assert RecordsOf(Initial())[..0] == [];
    assert Addresses(RecordsOf(Initial())) == [];
    assert Addresses(RecordsOf(st)) == trail;
    RecordCount(env, lines);
    if st.recipients > 0 {
      AddressesOfAll(RecordsOf(st));
    }
  }

  // --------------------------------------------------------- terminal flag

  /**
   * Once `statuspart` is set, no later line changes a record, the
   * recipient counter or the header echo, and the flag stays set.
   */
  lemma {:induction false} StatuspartFreezes(env: Env, st: ScanState, lines: seq<string>)
    requires st.statuspart
    ensures var n := Run(env, st, lines);
            n.statuspart && n.done == st.done && n.current == st.current
            && n.recipients == st.recipients && n.conn == st.conn
    decreases |lines|
  {
    if lines != [] {
      StatuspartFreezes(env, st, lines[..|lines| - 1]);
    }
  }

  /**
   * The one line that sets `statuspart` follows collected `MSEXCH:` text:
   * it is appended to the diagnosis after a space and marks the record.
   */
  lemma StatuspartSet(env: Env, st: ScanState, e: string)
    requires Inv(st)
    requires !st.statuspart && Step(env, st, e).statuspart
    ensures RecipientMode(st) && env.recipientAddress(e).None? && MsexchLine(e).None?
    ensures st.current.diagnosis.Some? && IsMsexchText(st.current.diagnosis.value)
    ensures Step(env, st, e).current.diagnosis == Some(st.current.diagnosis.value + " " + e)
    ensures Step(env, st, e).current.msexch == Some(true)
    ensures Step(env, st, e).done == st.done
  {
  }

  /**
   * A non-recipient line of the recipient part: an `MSEXCH:` line adds its
   * text to the diagnosis with no separator; a line after collected vendor
   * text goes to the diagnosis after a space and ends the part; any other
   * line goes to `alterrors` after a space, which only happens while no
   * diagnosis has been collected.
   */
  lemma RecipientPartLine(env: Env, st: ScanState, e: string)
    requires Inv(st) && RecipientMode(st) && !IsRfc822Marker(e)
    requires env.recipientAddress(e).None?
    ensures var n := Step(env, st, e); var v := st.current;
            MsexchLine(e).Some? ==>
              && n.current == v.(diagnosis := Some(v.diagnosis.GetOr("") + MsexchLine(e).value))
              && !n.statuspart
    ensures var n := Step(env, st, e); var v := st.current;
            MsexchLine(e).None? && v.diagnosis.Some? ==>
              && n.current == v.(msexch := Some(true), diagnosis := Some(v.diagnosis.value + " " + e))
              && n.statuspart
    ensures var n := Step(env, st, e); var v := st.current;
            MsexchLine(e).None? && v.diagnosis.None? ==>
              && n.current == v.(alterrors := Some(v.alterrors.GetOr("") + " " + e))
              && !n.statuspart
    ensures Step(env, st, e).done == st.done && Step(env, st, e).recipients == st.recipients
  {
  }

  // ------------------------------------------------ original-header capture

  /** The line is kept in `rfc822part` when read after the `message/rfc822` marker. */
  predicate KeptLine(env: Env, st: ScanState, e: string) {
    if HeaderName(e).Some? then Lower(HeaderName(e).value) in env.headerFields
    else StartsWithSpace(e) && st.previousfn in env.longFields && st.previousfn !in st.rfc822next
  }

  /**
   * After the marker, `rfc822part` grows by the whole line exactly when it
   * is a kept header or a continuation of an open long field; only a blank
   * line after a long field changes `rfc822next`, by closing that field.
   * A header line sets `previousfn` to its lower-cased name when the name is
   * kept and clears it otherwise; any other line leaves it as it was.
   */
  lemma CaptureStep(env: Env, st: ScanState, e: string)
    requires st.inMessageRfc822
    ensures KeptLine(env, st, e) ==> Step(env, st, e).rfc822part == st.rfc822part + e + "\n"
    ensures !KeptLine(env, st, e) ==> Step(env, st, e).rfc822part == st.rfc822part
    ensures Step(env, st, e).rfc822next ==
              if e == "" && st.previousfn in env.longFields then st.rfc822next + {st.previousfn}
              else st.rfc822next
    ensures KeptLine(env, st, e) && HeaderName(e).Some? ==>
              Step(env, st, e).previousfn == Lower(HeaderName(e).value)
    ensures HeaderName(e).Some? && !KeptLine(env, st, e) ==> Step(env, st, e).previousfn == ""
    ensures HeaderName(e).None? ==> Step(env, st, e).previousfn == st.previousfn
    ensures Step(env, st, e).inMessageRfc822
  {
  }

  /**
   * A continuation line right after a header whose name is not kept is
   * dropped: the header clears `previousfn`, which names no long field.
   */
  lemma UnlistedHeaderDropsContinuation(env: Env, st: ScanState, header: string, cont: string)
    requires st.inMessageRfc822 && "" !in env.longFields
    requires HeaderName(header).Some? && Lower(HeaderName(header).value) !in env.headerFields
    requires HeaderName(cont).None? && StartsWithSpace(cont)
    ensures Run(env, st, [header, cont]).rfc822part == st.rfc822part
  {
    CaptureStep(env, st, header);
    var mid := Step(env, st, header);
    CaptureStep(env, mid, cont);
    assert [header, cont][..1] == [header];
    RunOne(env, st, header);
  }

  /**
   * After the marker nothing but `rfc822part`, `previousfn` and
   * `rfc822next` changes, and `rfc822part` only grows.
   */
  lemma {:induction false} RfcFreezes(env: Env, st: ScanState, lines: seq<string>)
    requires st.inMessageRfc822
    ensures var n := Run(env, st, lines);
            && n.inMessageRfc822 && n.inDeliveryStatus == st.inDeliveryStatus
            && n.done == st.done && n.current == st.current && n.recipients == st.recipients
            && n.conn == st.conn && n.connvalues == st.connvalues && n.statuspart == st.statuspart
            && StartsWith(n.rfc822part, st.rfc822part)
    decreases |lines|
  {
    if lines != [] {
      RfcFreezes(env, st, lines[..|lines| - 1]);
      var m := Run(env, st, lines[..|lines| - 1]);
      var e := lines[|lines| - 1];
      CaptureStep(env, m, e);
      if KeptLine(env, m, e) {
        assert (m.rfc822part + e + "\n")[..|st.rfc822part|] == m.rfc822part[..|st.rfc822part|];
      }
    }
  }
}
