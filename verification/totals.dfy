/** Quote money: the line sum, labour, 19% IVA and the total, as computed when a
    quote is saved and as shown in the quote form's live preview. */
module Totals {
  import opened Domain

  /** The fixed IVA (value-added tax) rate. */
  const IvaRate: real := 0.19

  function LineTotal(item: QuoteItem): real {
    item.quantity * item.unitPrice
  }

  /** The item subtotal: the line amounts summed from zero, first line first, so
      the last line is added last. */
  function SubtotalItems(items: seq<QuoteItem>): real {
    if |items| == 0 then 0.0
    else SubtotalItems(items[..|items| - 1]) + LineTotal(items[|items| - 1])
  }

  /** The subtotal of a concatenation is the sum of the subtotals. */
  lemma {:induction false} SubtotalConcat(a: seq<QuoteItem>, b: seq<QuoteItem>)
    ensures SubtotalItems(a + b) == SubtotalItems(a) + SubtotalItems(b)
    decreases |b|
  {
    if |b| > 0 {
      var last := b[|b| - 1];
      var front := b[..|b| - 1];
      assert (a + b)[..|a + b| - 1] == a + front;
      assert (a + b)[|a + b| - 1] == last;
      SubtotalConcat(a, front);
    } else {
      assert a + b == a;
    }
  }

  /** The reduce loop itself, accumulating from the first line to the last. */
  method SumLines(items: seq<QuoteItem>) returns (acc: real)
    ensures acc == SubtotalItems(items)
  {
    acc := 0.0;
    var i := 0;
    while i < |items|
      invariant 0 <= i <= |items|
      invariant acc == SubtotalItems(items[..i])
    {
      assert items[..i + 1][..i] == items[..i];
      acc := acc + items[i].quantity * items[i].unitPrice;
      i := i + 1;
    }
    assert items[..i] == items;
  }

  /** The four money fields stored on a quote. */
  datatype QuoteTotals = QuoteTotals(subtotalItems: real, subtotalGeneral: real, iva: real, total: real)

  /** The computation at save time: IVA is 19% of the general subtotal and the total
      adds it, which is the preview's `subtotalGeneral * 1.19`. */
  function ComputeTotals(items: seq<QuoteItem>, laborCost: real): (t: QuoteTotals)
    ensures t.subtotalItems == SubtotalItems(items)
    ensures t.subtotalGeneral == t.subtotalItems + laborCost
    ensures t.iva == PreviewIva(items, laborCost)
    ensures t.total == PreviewTotal(items, laborCost)
    ensures t.total - t.iva == t.subtotalGeneral
  {
    var subtotalItems := SubtotalItems(items);
    var subtotalGeneral := subtotalItems + laborCost;
    var iva := subtotalGeneral * IvaRate;
    QuoteTotals(subtotalItems, subtotalGeneral, iva, subtotalGeneral + iva)
  }

  /** The preview's "Subtotal Equipos + MO" figure. */
  function PreviewSubtotal(items: seq<QuoteItem>, laborCost: real): real {
    SubtotalItems(items) + laborCost
  }

  /** The preview's "IVA Aplicado (19%)" figure. */
  function PreviewIva(items: seq<QuoteItem>, laborCost: real): real {
    PreviewSubtotal(items, laborCost) * 0.19
  }

  /** The preview's "Total General" figure. */
  function PreviewTotal(items: seq<QuoteItem>, laborCost: real): real {
    PreviewSubtotal(items, laborCost) * 1.19
  }

  /** Adding a line to the form moves every preview figure by that line's share. */
  lemma PreviewAfterAppend(items: seq<QuoteItem>, item: QuoteItem, laborCost: real)
    ensures PreviewSubtotal(items + [item], laborCost) == PreviewSubtotal(items, laborCost) + LineTotal(item)
    ensures PreviewTotal(items + [item], laborCost) == PreviewTotal(items, laborCost) + LineTotal(item) * 1.19
  {
    assert (items + [item])[..|items|] == items;
  }

  /** The worked example: two units at 100000 and one at 50000 with 30000 of labour. */
  lemma WorkedExample(a: QuoteItem, b: QuoteItem)
    requires a.quantity == 2.0 && a.unitPrice == 100000.0
    requires b.quantity == 1.0 && b.unitPrice == 50000.0
    ensures ComputeTotals([a, b], 30000.0) == QuoteTotals(250000.0, 280000.0, 53200.0, 333200.0)
  {
    assert [a, b][..1] == [a];
    assert [a][..0] == [];
    assert SubtotalItems([a]) == 200000.0;
    assert SubtotalItems([a, b]) == 250000.0;
  }
}
