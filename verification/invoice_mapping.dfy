/**
 * The two projections `InvoiceService` applies to an invoice row before it
 * is cached or returned: the detail view (header, items, adjustments) and
 * the summary view (header only). Both report as "last edited" the update
 * time when there is one and the creation time otherwise.
 */
module InvoiceMapping {
  import opened Common
  import opened InvoiceModels

  /** The time an invoice was last touched: `UpdatedAt ?? CreatedAt`. */
  function LastEdited(inv: Invoice): (t: DateTime)
    ensures inv.updatedAt.Some? ==> t == inv.updatedAt.value
    ensures inv.updatedAt.None? ==> t == inv.createdAt
  {
    inv.updatedAt.GetOr(inv.createdAt)
  }

  function MapItem(item: InvoiceItem): InvoiceItemDto {
    InvoiceItemDto(item.itemId, item.description, item.quantity, item.unitPrice, item.unit, item.amount)
  }

  function MapAdjustment(adj: InvoiceAdjustment): InvoiceAdjustmentDto {
    InvoiceAdjustmentDto(adj.description, adj.amount)
  }

  /** The entity a DTO item was copied from; the partner of `MapItem`. */
  function ItemOfDto(dto: InvoiceItemDto): InvoiceItem {
    InvoiceItem(dto.itemId, dto.description, dto.quantity, dto.unitPrice, dto.unit, dto.amount)
  }

  /** The entity a DTO adjustment was copied from; the partner of `MapAdjustment`. */
  function AdjustmentOfDto(dto: InvoiceAdjustmentDto): InvoiceAdjustment {
    InvoiceAdjustment(dto.description, dto.amount)
  }

  /** `MapToDetailDto`: the header, then items and adjustments copied one-to-one in order. */
  function MapToDetailDto(inv: Invoice): (d: InvoiceDetailDto)
    ensures d.invoiceNumber == inv.invoiceNumber
    ensures d.lastEdited == LastEdited(inv)
    ensures |d.items| == |inv.items| && |d.adjustments| == |inv.adjustments|
    ensures forall i :: 0 <= i < |d.items| ==> ItemOfDto(d.items[i]) == inv.items[i]
    ensures forall i :: 0 <= i < |d.adjustments| ==> AdjustmentOfDto(d.adjustments[i]) == inv.adjustments[i]
  {
    InvoiceDetailDto(
      inv.invoiceNumber, inv.issuedDate, inv.vendorName, inv.totalAmount, LastEdited(inv),
      seq(|inv.items|, i requires 0 <= i < |inv.items| => MapItem(inv.items[i])),
      seq(|inv.adjustments|, i requires 0 <= i < |inv.adjustments| => MapAdjustment(inv.adjustments[i])))
  }

  /** `MapToSummaryDto`: the same header the detail view carries. */
  function MapToSummaryDto(inv: Invoice): (s: InvoiceSummaryDto)
    ensures s == MapToDetailDto(inv).Header()
  {
    InvoiceSummaryDto(inv.invoiceNumber, inv.issuedDate, inv.vendorName, inv.totalAmount, LastEdited(inv))
  }

  /** The summaries of a list of rows, in the same order (`Select(MapToSummaryDto)`). */
  function MapSummaries(rows: seq<Invoice>): (r: seq<InvoiceSummaryDto>)
    ensures |r| == |rows|
    ensures forall i :: 0 <= i < |rows| ==> r[i] == MapToSummaryDto(rows[i])
  {
    seq(|rows|, i requires 0 <= i < |rows| => MapToSummaryDto(rows[i]))
  }

  /**
   * Nothing of an invoice's business content is lost in the detail view:
   * the header, every item and every adjustment can be read back from it.
   */
  lemma DetailPreservesContent(inv: Invoice)
    ensures var d := MapToDetailDto(inv);
      && d.issuedDate == inv.issuedDate
      && d.vendorName == inv.vendorName
      && d.totalAmount == inv.totalAmount
      && seq(|d.items|, i requires 0 <= i < |d.items| => ItemOfDto(d.items[i])) == inv.items
      && seq(|d.adjustments|, i requires 0 <= i < |d.adjustments| => AdjustmentOfDto(d.adjustments[i])) == inv.adjustments
  {
  }

  /**
   * Two rows with the same business content and edit times have the same
   * detail view; the view ignores only the row id and the tombstone.
   */
  lemma DetailIgnoresIdentityAndTombstone(inv: Invoice, id: int, deletedAt: Option<DateTime>)
    ensures MapToDetailDto(inv.(id := id, deletedAt := deletedAt)) == MapToDetailDto(inv)
    ensures MapToSummaryDto(inv.(id := id, deletedAt := deletedAt)) == MapToSummaryDto(inv)
  {
  }
}
