/** The service-report screen: the quotes offered for linking, saving a new report,
    and the text summary a report is printed with. */
module Reports {
  import opened Wrappers
  import opened Seqs
  import opened Text
  import opened Domain

  function IsApproved(q: Quote): bool {
    q.status == Approved
  }

  /** The quotes the link selector offers: the Approved ones, in list order. */
  function ApprovedQuotes(qs: seq<Quote>): (r: seq<Quote>)
    ensures forall i :: 0 <= i < |r| ==> r[i] in qs && r[i].status == Approved
    ensures forall i :: 0 <= i < |qs| && qs[i].status == Approved ==> qs[i] in r
  {
    Filter(qs, IsApproved)
  }

  /** The form: the selected visit and quote ('' for none) and the activities text. */
  datatype ReportForm = ReportForm(selectedVisit: string, selectedQuote: string, activities: string)

  datatype ReportSaveError = MissingVisitOrActivities

  /** A report's identifier: `REP-` and the last four digits of the creation
      timestamp (in milliseconds): the whole timestamp below 10000, and from 1000 on
      four digits worth the timestamp modulo 10000. */
  function ReportId(now: nat): (id: string)
    ensures 5 <= |id| <= 8 && id[..4] == "REP-"
    ensures forall i :: 4 <= i < |id| ==> IsDigit(id[i])
    ensures now < 10000 ==> id[4..] == NatToString(now)
    ensures now >= 1000 ==> |id| == 8 && DigitsValue(id[4..]) == now % 10000
  {
    LastFourDigits(now);
    var id := "REP-" + LastFour(NatToString(now));
    assert id[4..] == LastFour(NatToString(now));
    id
  }

  /** Report identifiers repeat: from 1000 on, every timestamp gets the same one as
      the timestamp ten seconds later. */
  lemma ReportIdsRepeat(n: nat)
    requires n >= 1000
    ensures ReportId(n) == ReportId(n + 10000)
  {
    LastFourRepeats(n);
  }

  /** The first visit with the given identifier, if any. */
  function VisitOf(s: AppState, visitId: string): (r: Option<Visit>)
    ensures r.Some? ==> r.value in s.visits && r.value.id == visitId
    ensures r.Some? ==> exists k :: 0 <= k < |s.visits| && s.visits[k] == r.value && forall j :: 0 <= j < k ==> s.visits[j].id != visitId
    ensures r.None? <==> forall i :: 0 <= i < |s.visits| ==> s.visits[i].id != visitId
  {
    Find(s.visits, (v: Visit) => v.id == visitId)
  }

  /** `handleSave()`. Without a visit or without activities it stops and the state
      is not touched. Otherwise it prepends one report and changes nothing else;
      the report copies the visit's client ('' when the visit is not found), links
      the selected quote only when one is selected, and starts with a twelve-month
      warranty and empty equipment and observations. */
  function SaveReport(s: AppState, f: ReportForm, now: nat, today: string): (r: Result<AppState, ReportSaveError>)
    ensures r.Failure? <==> f.selectedVisit == "" || f.activities == ""
    ensures r.Success? ==>
      && r.value == s.(reports := r.value.reports)
      && |r.value.reports| == |s.reports| + 1
      && r.value.reports[1..] == s.reports
    ensures r.Success? ==>
      var rep := r.value.reports[0];
      && rep.id == ReportId(now)
      && rep.visitId == f.selectedVisit
      && rep.date == today
      && rep.activities == f.activities
      && rep.equipmentIntervened == ""
      && rep.observations == ""
      && rep.warrantyMonths == 12
    ensures r.Success? ==>
      var rep := r.value.reports[0];
      && (rep.quoteId.None? <==> f.selectedQuote == "")
      && (f.selectedQuote != "" ==> rep.quoteId == Some(f.selectedQuote))
      && (VisitOf(s, f.selectedVisit).None? ==> rep.clientId == "")
      && (VisitOf(s, f.selectedVisit).Some? ==> rep.clientId == VisitOf(s, f.selectedVisit).value.clientId)
  {
    if f.selectedVisit == "" || f.activities == "" then Failure(MissingVisitOrActivities)
    else
      var clientId := match VisitOf(s, f.selectedVisit) case Some(v) => v.clientId case None => "";
      var report := ExecutionReport(
        ReportId(now), f.selectedVisit, clientId,
        if f.selectedQuote == "" then None else Some(f.selectedQuote),
        today, f.activities, "", "", 12);
      Success(s.(reports := [report] + s.reports))
  }

  predicate DistinctVisitIds(a: Visit, b: Visit) {
    a.id != b.id
  }

  /** With unique visit identifiers, a new report belongs to the client of the
      visit it was written for. */
  lemma ReportCopiesVisitClient(s: AppState, f: ReportForm, now: nat, today: string, v: Visit)
    requires Pairwise(s.visits, DistinctVisitIds)
    requires v in s.visits && v.id == f.selectedVisit
    requires f.selectedVisit != "" && f.activities != ""
    ensures SaveReport(s, f, now, today).Success?
    ensures SaveReport(s, f, now, today).value.reports[0].clientId == v.clientId
  {
    var vs := s.visits;
    forall a, b | 0 <= a < |vs| && 0 <= b < |vs| && a != b
      ensures vs[a].id != vs[b].id
    {
      if a < b {
        assert DistinctVisitIds(vs[a], vs[b]);
      } else {
        assert DistinctVisitIds(vs[b], vs[a]);
      }
    }
    var i :| 0 <= i < |vs| && vs[i] == v;
    var w := VisitOf(s, f.selectedVisit);
    assert w.Some? by {
      assert vs[i].id == f.selectedVisit;
    }
    var k :| 0 <= k < |vs| && vs[k] == w.value;
    assert vs[k].id == vs[i].id;
    assert w.value == v;
  }

  /** A quote picked from the link selector is Approved when the report is saved,
      so a new report only ever links an Approved quote (later status changes are
      not checked again). */
  lemma ReportLinksApprovedQuote(s: AppState, f: ReportForm, now: nat, today: string, q: Quote)
    requires f.selectedVisit != "" && f.activities != ""
    requires q in ApprovedQuotes(s.quotes) && f.selectedQuote == q.id && q.id != ""
    ensures SaveReport(s, f, now, today).value.reports[0].quoteId == Some(q.id)
    ensures q in s.quotes && q.status == Approved
  {
    var r := ApprovedQuotes(s.quotes);
    var k :| 0 <= k < |r| && r[k] == q;
  }

  /** The quote a report names, looked up by identifier. */
  function LinkedQuote(s: AppState, rep: ExecutionReport): (r: Option<Quote>)
    ensures r.Some? ==> rep.quoteId.Some? && r.value in s.quotes && r.value.id == rep.quoteId.value
    ensures rep.quoteId.Some? && r.None? ==> forall i :: 0 <= i < |s.quotes| ==> s.quotes[i].id != rep.quoteId.value
  {
    match rep.quoteId
    case None => None
    case Some(id) => Find(s.quotes, (q: Quote) => q.id == id)
  }

  /** The client name as interpolated: a missing client prints as "undefined". */
  function ClientNameText(s: AppState, clientId: string): string {
    match Find(s.clients, (c: Client) => c.id == clientId)
    case Some(c) => c.name
    case None => "undefined"
  }

  const QuoteMarker: string := "COTIZACIÓN ASOCIADA: "

  /** The client and date lines that open every summary. */
  function SummaryHead(s: AppState, rep: ExecutionReport): string {
    "CLIENTE: " + ClientNameText(s, rep.clientId) + "\nFECHA: " + rep.date + "\n"
  }

  /** The linked-quote line, empty when no linked quote is found. */
  function QuoteLine(s: AppState, rep: ExecutionReport): (line: string)
    ensures line != "" <==> rep.quoteId.Some? && exists i :: 0 <= i < |s.quotes| && s.quotes[i].id == rep.quoteId.value
    ensures line != "" ==> line == QuoteMarker + rep.quoteId.value + "\n"
    ensures line != "" <==> LinkedQuote(s, rep).Some?
  {
    match LinkedQuote(s, rep)
    case Some(q) => QuoteMarker + q.id + "\n"
    case None => ""
  }

  const ActivitiesHeading: string := "\nACTIVIDADES REALIZADAS:\n"

  /** What follows the head starts with the marker exactly when there is a quote line. */
  lemma MarkerStartsBody(line: string, id: string, activities: string)
    requires line == "" || line == QuoteMarker + id + "\n"
    ensures QuoteMarker <= line + ActivitiesHeading + activities <==> line != ""
    ensures line != "" ==> line <= line + ActivitiesHeading + activities
  {
    var body := line + ActivitiesHeading + activities;
    if line == "" {
      assert body[0] == '\n';
      assert QuoteMarker[0] == 'C';
    } else {
      assert body[..|QuoteMarker|] == QuoteMarker;
      assert body[..|line|] == line;
    }
  }

  /** `getReportSummary(r)`: after the client and date lines comes the linked-quote
      line exactly when the linked quote is found, then the activities heading and
      the activities (see `ReportSummaryTail`). */
  function ReportSummary(s: AppState, rep: ExecutionReport): (t: string)
    ensures |SummaryHead(s, rep)| <= |t| && t[..|SummaryHead(s, rep)|] == SummaryHead(s, rep)
    ensures QuoteMarker <= t[|SummaryHead(s, rep)|..] <==> LinkedQuote(s, rep).Some?
    ensures LinkedQuote(s, rep).Some? ==>
      QuoteMarker + LinkedQuote(s, rep).value.id + "\n" <= t[|SummaryHead(s, rep)|..]
    ensures |rep.activities| <= |t| && t[|t| - |rep.activities|..] == rep.activities
  {
    var head := SummaryHead(s, rep);
    var line := QuoteLine(s, rep);
    var body := line + ActivitiesHeading + rep.activities;
    var t := head + body;
    assert t[..|head|] == head && t[|head|..] == body;
    assert t[|t| - |rep.activities|..] == rep.activities;
    MarkerStartsBody(line, if rep.quoteId.Some? then rep.quoteId.value else "", rep.activities);
    t
  }

  /** The activities heading sits right before the activities, and nothing but the
      quote line lies between the head and the heading. */
  lemma ReportSummaryTail(s: AppState, rep: ExecutionReport)
    ensures var t := ReportSummary(s, rep);
      && |t| == |SummaryHead(s, rep)| + |QuoteLine(s, rep)| + |ActivitiesHeading| + |rep.activities|
      && t[|t| - |rep.activities| - |ActivitiesHeading|..|t| - |rep.activities|] == ActivitiesHeading
  {
    var head, line := SummaryHead(s, rep), QuoteLine(s, rep);
    var t := head + (line + ActivitiesHeading + rep.activities);
    assert t == (head + line) + ActivitiesHeading + rep.activities;
  }
}
