/** The quote state machine of the quotes screen: the status selector, the approve
    button with its replacement protocol, and delete; together with the invariant
    they are meant to keep, "at most one Approved quote per client". Every
    operation selects quotes by `id`, so the invariant needs quote ids to be unique,
    which creation does not guarantee (see QuoteBuilder). */
module QuoteLifecycle {
  import opened Wrappers
  import opened Seqs
  import opened Text
  import opened Domain

  /** The identifier `COT-<n>` a quote is created with. */
  function QuoteId(n: nat): string {
    "COT-" + NatToString(n)
  }

  /** Two creation counters give the same identifier only when they are equal. */
  lemma QuoteIdInjective(n: nat, m: nat)
    ensures QuoteId(n) == QuoteId(m) <==> n == m
  {
    if QuoteId(n) == QuoteId(m) {
      assert NatToString(n) == QuoteId(n)[4..];
      assert NatToString(m) == QuoteId(m)[4..];
      NatToStringInjective(n, m);
    }
  }

  predicate DistinctIds(a: Quote, b: Quote) {
    a.id != b.id
  }

  /** No two quotes share an identifier. */
  predicate UniqueIds(qs: seq<Quote>) {
    Pairwise(qs, DistinctIds)
  }

  predicate ApprovalsCompatible(a: Quote, b: Quote) {
    a.status == Approved && b.status == Approved ==> a.clientId != b.clientId
  }

  /** The approval invariant: no client has two Approved quotes. */
  predicate AtMostOneApprovedPerClient(qs: seq<Quote>) {
    Pairwise(qs, ApprovalsCompatible)
  }

  lemma UniqueIdsAt(qs: seq<Quote>, i: nat, j: nat)
    requires UniqueIds(qs)
    requires i < |qs| && j < |qs| && i != j
    ensures qs[i].id != qs[j].id
  {
    if i < j {
      assert DistinctIds(qs[i], qs[j]);
    } else {
      assert DistinctIds(qs[j], qs[i]);
    }
  }

  lemma ApprovalsCompatibleAt(qs: seq<Quote>, i: nat, j: nat)
    requires AtMostOneApprovedPerClient(qs)
    requires i < |qs| && j < |qs| && i != j
    ensures ApprovalsCompatible(qs[i], qs[j])
  {
    if i < j {
      assert ApprovalsCompatible(qs[i], qs[j]);
    } else {
      assert ApprovalsCompatible(qs[j], qs[i]);
    }
  }

  /** `updateQuoteStatus(id, newStatus)`: every quote with that id gets the new
      status, and nothing else in the state changes. */
  function UpdateQuoteStatus(s: AppState, id: string, newStatus: Status): (r: AppState)
    ensures r == s.(quotes := r.quotes)
    ensures |r.quotes| == |s.quotes|
    ensures forall i :: 0 <= i < |s.quotes| ==> r.quotes[i] == s.quotes[i].(status := r.quotes[i].status)
    ensures forall i :: 0 <= i < |s.quotes| ==>
      r.quotes[i].status == if s.quotes[i].id == id then newStatus else s.quotes[i].status
  {
    s.(quotes := Replace(s.quotes, (q: Quote) => q.id == id, (q: Quote) => q.(status := newStatus)))
  }

  /** Whether `q` is another Approved quote of `quote`'s client. */
  predicate IsRival(q: Quote, quote: Quote) {
    q.clientId == quote.clientId && q.status == Approved && q.id != quote.id
  }

  /** The first other Approved quote of the same client, if any. */
  function ExistingApproved(qs: seq<Quote>, quote: Quote): (r: Option<Quote>)
    ensures r.Some? ==> r.value in qs && IsRival(r.value, quote)
    ensures r.Some? ==> exists k :: 0 <= k < |qs| && qs[k] == r.value && forall j :: 0 <= j < k ==> !IsRival(qs[j], quote)
    ensures r.None? <==> forall i :: 0 <= i < |qs| ==> !IsRival(qs[i], quote)
  {
    Find(qs, (q: Quote) => IsRival(q, quote))
  }

  /** `handleApproveQuote(quote)`. Without a rival the quote's id is set to Approved.
      With one, `confirm` is the user's answer: refusal changes nothing, and
      acceptance demotes the rival's id to Sent and approves the quote's id in a
      single update. Only statuses ever change. */
  function ApproveQuote(s: AppState, quote: Quote, confirm: bool): (r: AppState)
    ensures r == s.(quotes := r.quotes)
    ensures |r.quotes| == |s.quotes|
    ensures forall i :: 0 <= i < |s.quotes| ==> r.quotes[i] == s.quotes[i].(status := r.quotes[i].status)
    ensures var e := ExistingApproved(s.quotes, quote);
      e.Some? && !confirm ==> r == s
    ensures var e := ExistingApproved(s.quotes, quote);
      e.None? || confirm ==>
        forall i :: 0 <= i < |s.quotes| && s.quotes[i].id == quote.id ==> r.quotes[i].status == Approved
    ensures var e := ExistingApproved(s.quotes, quote);
      e.Some? && confirm ==>
        forall i :: 0 <= i < |s.quotes| && s.quotes[i].id == e.value.id ==> r.quotes[i].status == Sent
    ensures var e := ExistingApproved(s.quotes, quote);
      forall i :: 0 <= i < |s.quotes| && s.quotes[i].id != quote.id && (e.None? || s.quotes[i].id != e.value.id) ==>
        r.quotes[i] == s.quotes[i]
  {
    match ExistingApproved(s.quotes, quote)
    case None => UpdateQuoteStatus(s, quote.id, Approved)
    case Some(existing) =>
      if !confirm then s
      else
        s.(quotes := Replace(
             s.quotes,
             (q: Quote) => q.id == existing.id || q.id == quote.id,
             (q: Quote) => if q.id == existing.id then q.(status := Sent) else q.(status := Approved)))
  }

  /** Approval with no rival: the only new Approved quotes carry the quote's own id,
      which with unique ids is the quote itself. */
  lemma ApproveWithoutRivalKeepsInvariant(s: AppState, quote: Quote, k: nat)
    requires UniqueIds(s.quotes) && AtMostOneApprovedPerClient(s.quotes)
    requires k < |s.quotes| && s.quotes[k] == quote
    requires ExistingApproved(s.quotes, quote).None?
    ensures AtMostOneApprovedPerClient(UpdateQuoteStatus(s, quote.id, Approved).quotes)
  {
    var qs := s.quotes;
    var rs := UpdateQuoteStatus(s, quote.id, Approved).quotes;
    forall i, j | 0 <= i < j < |rs|
      ensures ApprovalsCompatible(rs[i], rs[j])
    {
      if i != k { UniqueIdsAt(qs, i, k); }
      if j != k { UniqueIdsAt(qs, j, k); }
      assert ApprovalsCompatible(qs[i], qs[j]);
    }
  }

  /** Confirmed approval over a rival: the rival is demoted and the quote is the only
      other change, so the client ends with just the quote Approved. */
  lemma ApproveOverRivalKeepsInvariant(s: AppState, quote: Quote, k: nat, m: nat)
    requires UniqueIds(s.quotes) && AtMostOneApprovedPerClient(s.quotes)
    requires k < |s.quotes| && s.quotes[k] == quote
    requires m < |s.quotes| && ExistingApproved(s.quotes, quote) == Some(s.quotes[m])
    ensures AtMostOneApprovedPerClient(ApproveQuote(s, quote, true).quotes)
  {
    var qs := s.quotes;
    var rs := ApproveQuote(s, quote, true).quotes;
    forall i, j | 0 <= i < j < |rs|
      ensures ApprovalsCompatible(rs[i], rs[j])
    {
      if i != k { UniqueIdsAt(qs, i, k); }
      if j != k { UniqueIdsAt(qs, j, k); }
      if i != m { UniqueIdsAt(qs, i, m); ApprovalsCompatibleAt(qs, i, m); }
      if j != m { UniqueIdsAt(qs, j, m); ApprovalsCompatibleAt(qs, j, m); }
      assert ApprovalsCompatible(qs[i], qs[j]);
    }
  }

  /** Approval keeps the invariant, for a quote taken from the list (the approve
      button of its row) when quote ids are unique. */
  lemma ApprovePreservesInvariant(s: AppState, quote: Quote, confirm: bool)
    requires UniqueIds(s.quotes)
    requires AtMostOneApprovedPerClient(s.quotes)
    requires quote in s.quotes
    ensures UniqueIds(ApproveQuote(s, quote, confirm).quotes)
    ensures AtMostOneApprovedPerClient(ApproveQuote(s, quote, confirm).quotes)
  {
    var qs := s.quotes;
    var rs := ApproveQuote(s, quote, confirm).quotes;
    forall i, j | 0 <= i < j < |rs|
      ensures DistinctIds(rs[i], rs[j])
    {
      assert DistinctIds(qs[i], qs[j]);
    }
    var k :| 0 <= k < |qs| && qs[k] == quote;
    var e := ExistingApproved(qs, quote);
    if e.None? {
      ApproveWithoutRivalKeepsInvariant(s, quote, k);
    } else if confirm {
      var m :| 0 <= m < |qs| && qs[m] == e.value;
      ApproveOverRivalKeepsInvariant(s, quote, k, m);
    }
  }

  /** Setting any status other than Approved keeps the invariant, whatever the ids. */
  lemma UpdateToNonApprovedPreservesInvariant(s: AppState, id: string, newStatus: Status)
    requires newStatus != Approved
    requires AtMostOneApprovedPerClient(s.quotes)
    ensures AtMostOneApprovedPerClient(UpdateQuoteStatus(s, id, newStatus).quotes)
  {
    var qs := s.quotes;
    var rs := UpdateQuoteStatus(s, id, newStatus).quotes;
    forall i, j | 0 <= i < j < |rs|
      ensures ApprovalsCompatible(rs[i], rs[j])
    {
      assert ApprovalsCompatible(qs[i], qs[j]);
    }
  }

  /** The test delete filters by: the quote carries some other identifier. */
  function KeepsOtherIds(id: string): Quote -> bool {
    (q: Quote) => q.id != id
  }

  /** `handleDeleteQuote(id)`: on confirmation every quote with that id is removed
      and the rest keep their order; refusal changes nothing. */
  function DeleteQuote(s: AppState, id: string, confirm: bool): (r: AppState)
    ensures r == s.(quotes := r.quotes)
    ensures !confirm ==> r == s
    ensures confirm ==> forall q :: q in r.quotes <==> q in s.quotes && q.id != id
    ensures confirm ==> |r.quotes| <= |s.quotes|
    ensures (forall i :: 0 <= i < |s.quotes| ==> s.quotes[i].id != id) ==> r == s
  {
    if confirm then s.(quotes := Filter(s.quotes, KeepsOtherIds(id))) else s
  }

  /** Deleting from a split list deletes from each part and joins the results, so
      together with the contract (a one-quote list loses its quote exactly when it
      carries the id) the result is fixed: every quote with the id goes, however
      often it occurs, and the others stay in order and multiplicity. */
  lemma DeleteQuoteSplits(s: AppState, id: string, a: seq<Quote>, b: seq<Quote>)
    requires s.quotes == a + b
    ensures DeleteQuote(s, id, true).quotes
      == DeleteQuote(s.(quotes := a), id, true).quotes + DeleteQuote(s.(quotes := b), id, true).quotes
  {
    FilterConcat(a, b, KeepsOtherIds(id));
  }

  /** Deleting keeps the other quotes in their order. */
  lemma DeleteQuoteKeepsOrder(s: AppState, a: seq<Quote>, q: Quote, b: seq<Quote>)
    requires s.quotes == a + [q] + b
    requires forall i :: 0 <= i < |a| ==> a[i].id != q.id
    requires forall i :: 0 <= i < |b| ==> b[i].id != q.id
    ensures DeleteQuote(s, q.id, true).quotes == a + b
  {
    FilterDropsOne(a, q, b, KeepsOtherIds(q.id));
  }

  /** Deletion keeps both the invariant and id uniqueness: it only removes quotes. */
  lemma DeletePreservesInvariant(s: AppState, id: string, confirm: bool)
    requires AtMostOneApprovedPerClient(s.quotes)
    ensures AtMostOneApprovedPerClient(DeleteQuote(s, id, confirm).quotes)
    ensures UniqueIds(s.quotes) ==> UniqueIds(DeleteQuote(s, id, confirm).quotes)
  {
    if confirm {
      FilterPairwise(s.quotes, KeepsOtherIds(id), ApprovalsCompatible);
      if UniqueIds(s.quotes) {
        FilterPairwise(s.quotes, KeepsOtherIds(id), DistinctIds);
      }
    }
  }

  /** The row controls that exist for a quote: the status selector is disabled and
      the approve and delete buttons are hidden once it is Approved. */
  predicate RowEditable(q: Quote) {
    q.status != Approved
  }

  /** The status selector of row `q` picking `newStatus`; any of the four options,
      Approved included, reaches `updateQuoteStatus` without the approval check. */
  function ChangeStatusFromRow(s: AppState, q: Quote, newStatus: Status): (r: AppState)
    ensures r == s.(quotes := r.quotes) && |r.quotes| == |s.quotes|
    ensures q.status == Approved ==> r == s
    ensures q.status != Approved ==> forall i :: 0 <= i < |s.quotes| ==>
      r.quotes[i] == if s.quotes[i].id == q.id then s.quotes[i].(status := newStatus) else s.quotes[i]
  {
    if RowEditable(q) then UpdateQuoteStatus(s, q.id, newStatus) else s
  }

  /** The delete button of row `q`. */
  function DeleteFromRow(s: AppState, q: Quote, confirm: bool): (r: AppState)
    ensures r == s.(quotes := r.quotes)
    ensures q.status == Approved || !confirm ==> r == s
    ensures q.status != Approved && confirm ==> forall x :: x in r.quotes <==> x in s.quotes && x.id != q.id
    ensures (forall i :: 0 <= i < |s.quotes| ==> s.quotes[i].id != q.id) ==> r == s
  {
    if RowEditable(q) then DeleteQuote(s, q.id, confirm) else s
  }

  /** On a one-quote list, a confirmed delete removes the quote exactly when it
      carries the id. With `DeleteQuoteSplits` this fixes the result on every list. */
  lemma DeleteQuoteOfOne(s: AppState, id: string, x: Quote)
    requires s.quotes == [x]
    ensures DeleteQuote(s, id, true).quotes == if x.id == id then [] else [x]
  {
  }

  /** A row's delete, like `DeleteQuote`, acts on each part of a split list. */
  lemma DeleteFromRowSplits(s: AppState, q: Quote, a: seq<Quote>, b: seq<Quote>)
    requires s.quotes == a + b
    ensures DeleteFromRow(s, q, true).quotes
      == DeleteFromRow(s.(quotes := a), q, true).quotes + DeleteFromRow(s.(quotes := b), q, true).quotes
  {
    DeleteQuoteSplits(s, q.id, a, b);
  }

  /** With unique ids an Approved quote is never deleted: its row offers no delete
      and no other row shares its id. */
  lemma DeleteFromRowKeepsApproved(s: AppState, q: Quote, confirm: bool, a: Quote)
    requires UniqueIds(s.quotes)
    requires q in s.quotes
    requires a in s.quotes && a.status == Approved
    ensures a in DeleteFromRow(s, q, confirm).quotes
  {
    if RowEditable(q) && confirm {
      var i :| 0 <= i < |s.quotes| && s.quotes[i] == q;
      var j :| 0 <= j < |s.quotes| && s.quotes[j] == a;
      if i != j {
        UniqueIdsAt(s.quotes, i, j);
      }
    }
  }

  /** A quote with only the fields the lifecycle looks at filled in. */
  function SampleQuote(id: string, clientId: string, status: Status): Quote {
    Quote(id, clientId, "", [], [], 0.0, 0.0, 0.0, 0.0, 0.0, status, "", "")
  }

  function StateWithQuotes(qs: seq<Quote>): AppState {
    AppState([], [], qs, [], [], [], None)
  }

  /** The status selector can approve a second quote of a client that already has
      one Approved, even with unique ids. */
  lemma SelectorApprovalBreaksInvariant()
    ensures exists s: AppState, q: Quote ::
      && q in s.quotes && UniqueIds(s.quotes) && AtMostOneApprovedPerClient(s.quotes)
      && !AtMostOneApprovedPerClient(ChangeStatusFromRow(s, q, Approved).quotes)
  {
    var a := SampleQuote("COT-101", "c1", Approved);
    var b := SampleQuote("COT-102", "c1", Sent);
    var s := StateWithQuotes([b, a]);
    assert UniqueIds(s.quotes) by {
      assert DistinctIds(s.quotes[0], s.quotes[1]);
    }
    var rs := ChangeStatusFromRow(s, b, Approved).quotes;
    assert !ApprovalsCompatible(rs[0], rs[1]);
  }

  /** With a duplicated id, approving one quote also approves its namesake, which
      can give that namesake's client a second Approved quote. */
  lemma ApproveWithDuplicateIdBreaksInvariant()
    ensures exists s: AppState, q: Quote ::
      && q in s.quotes && AtMostOneApprovedPerClient(s.quotes)
      && !AtMostOneApprovedPerClient(ApproveQuote(s, q, true).quotes)
  {
    var x1 := SampleQuote("COT-102", "c1", Sent);
    var x2 := SampleQuote("COT-102", "c2", Sent);
    var y := SampleQuote("COT-101", "c2", Approved);
    var s := StateWithQuotes([x1, x2, y]);
    assert ExistingApproved(s.quotes, x1).None? by {
      assert !IsRival(s.quotes[0], x1) && !IsRival(s.quotes[1], x1) && !IsRival(s.quotes[2], x1);
    }
    var rs := ApproveQuote(s, x1, true).quotes;
    assert rs[1].status == Approved && rs[2] == y;
    assert !ApprovalsCompatible(rs[1], rs[2]);
  }

  /** With a duplicated id, deleting a non-Approved quote also removes the Approved
      quote that shares its id. */
  lemma DeleteWithDuplicateIdRemovesApproved()
    ensures exists s: AppState, q: Quote, a: Quote ::
      && q in s.quotes && RowEditable(q) && a in s.quotes && a.status == Approved
      && a !in DeleteFromRow(s, q, true).quotes
  {
    var a := SampleQuote("COT-102", "c1", Approved);
    var q := SampleQuote("COT-102", "c2", Sent);
    var s := StateWithQuotes([q, a]);
    assert a !in DeleteFromRow(s, q, true).quotes;
  }
}
