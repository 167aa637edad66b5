/** The new-quote form of the quotes screen: marking service types, adding and
    removing item lines, and saving, which computes the totals once and prepends
    the quote with status Sent and identifier `COT-<count + 101>`. */
module QuoteBuilder {
  import opened Wrappers
  import opened Seqs
  import opened Text
  import opened Domain
  import opened Totals
  import opened QuoteLifecycle

  /** The item line being typed, before it is added. */
  datatype ItemDraft = ItemDraft(description: string, quantity: real, unitPrice: real)

  /** What the item inputs are reset to after an item is added. */
  const BlankItem: ItemDraft := ItemDraft("", 1.0, 0.0)

  /** The form's state: the selected client ('' for none), the marked service types
      in marking order, the item lines, the labour cost and the item being typed. */
  datatype QuoteForm = QuoteForm(
    selectedClient: string,
    serviceTypes: seq<ServiceType>,
    items: seq<QuoteItem>,
    laborCost: real,
    newItem: ItemDraft)

  function OtherThan(t: ServiceType): ServiceType -> bool {
    (u: ServiceType) => u != t
  }

  /** `toggleServiceType(type)`: unmarks a marked type, or marks an unmarked one
      at the end; no other type and no other field changes. */
  function ToggleServiceType(f: QuoteForm, t: ServiceType): (r: QuoteForm)
    ensures r == f.(serviceTypes := r.serviceTypes)
    ensures t in r.serviceTypes <==> t !in f.serviceTypes
    ensures forall u :: u != t ==> (u in r.serviceTypes <==> u in f.serviceTypes)
    ensures t !in f.serviceTypes ==> r.serviceTypes == f.serviceTypes + [t]
  {
    if t in f.serviceTypes then f.(serviceTypes := Filter(f.serviceTypes, OtherThan(t)))
    else f.(serviceTypes := f.serviceTypes + [t])
  }

  /** Marking an unmarked type and unmarking it again restores the form exactly. */
  lemma ToggleTwiceRestores(f: QuoteForm, t: ServiceType)
    requires t !in f.serviceTypes
    ensures ToggleServiceType(ToggleServiceType(f, t), t) == f
  {
    var ts := f.serviceTypes;
    FilterConcat(ts, [t], OtherThan(t));
    assert Filter([t], OtherThan(t)) == [];
  }

  predicate Different(a: ServiceType, b: ServiceType) {
    a != b
  }

  /** Toggling never marks a type twice, so the marks behave as a set. */
  lemma ToggleKeepsMarksDistinct(f: QuoteForm, t: ServiceType)
    requires Pairwise(f.serviceTypes, Different)
    ensures Pairwise(ToggleServiceType(f, t).serviceTypes, Different)
  {
    if t in f.serviceTypes {
      FilterPairwise(f.serviceTypes, OtherThan(t), Different);
    } else {
      var ts := f.serviceTypes + [t];
      forall i, j | 0 <= i < j < |ts|
        ensures Different(ts[i], ts[j])
      {
        if j < |f.serviceTypes| {
          assert Different(f.serviceTypes[i], f.serviceTypes[j]);
        }
      }
    }
  }

  /** `handleAddItem()`: an empty description adds nothing; otherwise the typed
      line is appended, identified by the decimal text of the timestamp `now`, and
      the inputs are reset. */
  function AddItem(f: QuoteForm, now: nat): (r: QuoteForm)
    ensures f.newItem.description == "" ==> r == f
    ensures f.newItem.description != "" ==>
      && r == f.(items := r.items, newItem := BlankItem)
      && |r.items| == |f.items| + 1
      && r.items[..|f.items|] == f.items
      && r.items[|f.items|] == QuoteItem(NatToString(now), f.newItem.description, f.newItem.quantity, f.newItem.unitPrice)
  {
    if f.newItem.description == "" then f
    else
      var item := QuoteItem(NatToString(now), f.newItem.description, f.newItem.quantity, f.newItem.unitPrice);
      f.(items := f.items + [item], newItem := BlankItem)
  }

  function KeepsOtherItems(id: string): QuoteItem -> bool {
    (i: QuoteItem) => i.id != id
  }

  /** `handleRemoveItem(id)`: drops every line with that identifier. */
  function RemoveItem(f: QuoteForm, id: string): (r: QuoteForm)
    ensures r == f.(items := r.items)
    ensures forall i :: 0 <= i < |r.items| ==> r.items[i] in f.items && r.items[i].id != id
    ensures forall i :: 0 <= i < |f.items| && f.items[i].id != id ==> f.items[i] in r.items
    ensures (forall i :: 0 <= i < |f.items| ==> f.items[i].id != id) ==> r == f
  {
    f.(items := Filter(f.items, KeepsOtherItems(id)))
  }

  /** Removing from a split list of lines removes from each part and joins the
      results, so every line with the id goes, however often it occurs, and the
      others stay in order and multiplicity. */
  lemma RemoveItemSplits(f: QuoteForm, id: string, a: seq<QuoteItem>, b: seq<QuoteItem>)
    requires f.items == a + b
    ensures RemoveItem(f, id).items == RemoveItem(f.(items := a), id).items + RemoveItem(f.(items := b), id).items
  {
    FilterConcat(a, b, KeepsOtherItems(id));
  }

  /** Removing a line just added under a fresh identifier gives back the old lines. */
  lemma RemoveUndoesAdd(f: QuoteForm, now: nat)
    requires f.newItem.description != ""
    requires forall i :: 0 <= i < |f.items| ==> f.items[i].id != NatToString(now)
    ensures RemoveItem(AddItem(f, now), NatToString(now)).items == f.items
  {
    var item := QuoteItem(NatToString(now), f.newItem.description, f.newItem.quantity, f.newItem.unitPrice);
    FilterConcat(f.items, [item], KeepsOtherItems(NatToString(now)));
    assert Filter([item], KeepsOtherItems(NatToString(now))) == [];
  }

  /** Adding a line raises the preview total by that line's amount with IVA. */
  lemma AddItemPreview(f: QuoteForm, now: nat)
    requires f.newItem.description != ""
    ensures var r := AddItem(f, now);
      PreviewTotal(r.items, r.laborCost)
        == PreviewTotal(f.items, f.laborCost) + f.newItem.quantity * f.newItem.unitPrice * 1.19
  {
    var item := QuoteItem(NatToString(now), f.newItem.description, f.newItem.quantity, f.newItem.unitPrice);
    PreviewAfterAppend(f.items, item, f.laborCost);
  }

  datatype QuoteSaveError = NoClientSelected | NoServiceTypeMarked

  /** The boilerplate texts a new quote starts with (observations and commercial
      conditions), whose wording is not modelled. */
  datatype Templates = Templates(observations: string, commercialConditions: string)

  /** `handleSaveQuote()`. Without a client, or with no service type marked, it
      stops (in that order) and the state is not touched. Otherwise it prepends a
      Sent quote numbered from the current quote count, carrying the form's
      contents, the date and the totals computed once, and changes nothing else. */
  function SaveQuote(s: AppState, f: QuoteForm, today: string, templates: Templates): (r: Result<AppState, QuoteSaveError>)
    ensures f.selectedClient == "" ==> r == Failure(NoClientSelected)
    ensures f.selectedClient != "" && |f.serviceTypes| == 0 ==> r == Failure(NoServiceTypeMarked)
    ensures r.Success? <==> f.selectedClient != "" && |f.serviceTypes| > 0
    ensures r.Success? ==>
      && r.value == s.(quotes := r.value.quotes)
      && |r.value.quotes| == |s.quotes| + 1
      && r.value.quotes[1..] == s.quotes
    ensures r.Success? ==>
      var q := r.value.quotes[0];
      && q.id == QuoteId(|s.quotes| + 101)
      && q.status == Sent
      && q.clientId == f.selectedClient
      && q.date == today
      && q.serviceTypes == f.serviceTypes
      && q.items == f.items
      && q.laborCost == f.laborCost
      && q.observations == templates.observations
      && q.commercialConditions == templates.commercialConditions
    ensures r.Success? ==>
      var q := r.value.quotes[0];
      && q.subtotalItems == SubtotalItems(f.items)
      && q.subtotalGeneral == q.subtotalItems + f.laborCost
      && q.iva == PreviewIva(f.items, f.laborCost)
      && q.total == PreviewTotal(f.items, f.laborCost)
  {
    if f.selectedClient == "" then Failure(NoClientSelected)
    else if |f.serviceTypes| == 0 then Failure(NoServiceTypeMarked)
    else
      var t := ComputeTotals(f.items, f.laborCost);
      var q := Quote(
        QuoteId(|s.quotes| + 101), f.selectedClient, today, f.serviceTypes, f.items, f.laborCost,
        t.subtotalItems, t.subtotalGeneral, t.iva, t.total, Sent,
        templates.observations, templates.commercialConditions);
      Success(s.(quotes := [q] + s.quotes))
  }

  /** Saving a quote keeps the approval invariant: the new quote is only Sent. */
  lemma SavePreservesInvariant(s: AppState, f: QuoteForm, today: string, templates: Templates)
    requires AtMostOneApprovedPerClient(s.quotes)
    ensures var r := SaveQuote(s, f, today, templates);
      r.Success? ==> AtMostOneApprovedPerClient(r.value.quotes)
  {
    var r := SaveQuote(s, f, today, templates);
    if r.Success? {
      assert r.value.quotes == [r.value.quotes[0]] + s.quotes;
      PairwisePrepend(r.value.quotes[0], s.quotes, ApprovalsCompatible);
    }
  }

  /** Saving keeps quote ids unique exactly when `COT-<count + 101>` is not already
      taken, which a deletion can cause. */
  lemma SaveKeepsUniqueIdsIffFresh(s: AppState, f: QuoteForm, today: string, templates: Templates)
    requires UniqueIds(s.quotes)
    requires f.selectedClient != "" && |f.serviceTypes| > 0
    ensures UniqueIds(SaveQuote(s, f, today, templates).value.quotes)
      <==> forall i :: 0 <= i < |s.quotes| ==> s.quotes[i].id != QuoteId(|s.quotes| + 101)
  {
    var rs := SaveQuote(s, f, today, templates).value.quotes;
    assert rs == [rs[0]] + s.quotes;
    if forall i :: 0 <= i < |s.quotes| ==> s.quotes[i].id != QuoteId(|s.quotes| + 101) {
      PairwisePrepend(rs[0], s.quotes, DistinctIds);
    } else {
      var i :| 0 <= i < |s.quotes| && s.quotes[i].id == QuoteId(|s.quotes| + 101);
      assert !DistinctIds(rs[0], rs[i + 1]);
    }
  }

  /** Create two quotes, delete the first, create another: the third quote gets the
      identifier of the second, whatever the forms say. */
  lemma CreateDeleteCreateDuplicatesId(
    s: AppState, f1: QuoteForm, f2: QuoteForm, f3: QuoteForm, today: string, templates: Templates)
    requires s.quotes == []
    requires f1.selectedClient != "" && |f1.serviceTypes| > 0
    requires f2.selectedClient != "" && |f2.serviceTypes| > 0
    requires f3.selectedClient != "" && |f3.serviceTypes| > 0
    ensures var s1 := SaveQuote(s, f1, today, templates).value;
      var s2 := SaveQuote(s1, f2, today, templates).value;
      var s3 := DeleteQuote(s2, QuoteId(101), true);
      var s4 := SaveQuote(s3, f3, today, templates).value;
      && |s4.quotes| == 2
      && s4.quotes[0].id == s4.quotes[1].id == QuoteId(102)
      && !UniqueIds(s4.quotes)
  {
    var s1 := SaveQuote(s, f1, today, templates).value;
    var s2 := SaveQuote(s1, f2, today, templates).value;
    var a, b := s2.quotes[0], s2.quotes[1];
    assert s2.quotes == [a, b] && a.id == QuoteId(102) && b.id == QuoteId(101) by {
      assert |s1.quotes| == 1 && s1.quotes[0].id == QuoteId(101);
    }
    var s3 := DeleteQuote(s2, QuoteId(101), true);
    assert s3.quotes == [a] by {
      assert QuoteId(101) != QuoteId(102) by { QuoteIdInjective(101, 102); }
      var keep := KeepsOtherIds(QuoteId(101));
      assert Filter([b], keep) == [];
      assert Filter([a], keep) == [a];
      FilterConcat([a], [b], keep);
      assert [a, b] == [a] + [b];
    }
    var s4 := SaveQuote(s3, f3, today, templates).value;
    assert !DistinctIds(s4.quotes[0], s4.quotes[1]);
  }
}
