/**
 * The persisted invoice entity and the read-only projections the service
 * hands to the cache and the API. An invoice row is active while its
 * `deletedAt` tombstone is absent.
 */
module InvoiceModels {
  import opened Common

  /** A persisted line item, owned by its invoice. */
  datatype InvoiceItem = InvoiceItem(
    itemId: string,
    description: Option<string>,
    quantity: Decimal,
    unitPrice: Decimal,
    unit: string,
    amount: Decimal)

  /** A persisted non-line-item charge or credit, owned by its invoice. */
  datatype InvoiceAdjustment = InvoiceAdjustment(description: Option<string>, amount: Decimal)

  /** An invoice row: business fields, audit times and the soft-delete tombstone. */
  datatype Invoice = Invoice(
    id: int,
    invoiceNumber: string,
    issuedDate: DateTime,
    vendorName: string,
    totalAmount: Decimal,
    items: seq<InvoiceItem>,
    adjustments: seq<InvoiceAdjustment>,
    createdAt: DateTime,
    updatedAt: Option<DateTime>,
    deletedAt: Option<DateTime>)
  {
    /** Not soft-deleted. */
    predicate IsActive() {
      deletedAt.None?
    }
  }

  datatype InvoiceItemDto = InvoiceItemDto(
    itemId: string,
    description: Option<string>,
    quantity: Decimal,
    unitPrice: Decimal,
    unit: string,
    amount: Decimal)

  datatype InvoiceAdjustmentDto = InvoiceAdjustmentDto(description: Option<string>, amount: Decimal)

  /** The list-view projection of an invoice. */
  datatype InvoiceSummaryDto = InvoiceSummaryDto(
    invoiceNumber: string,
    issuedDate: DateTime,
    vendorName: string,
    totalAmount: Decimal,
    lastEdited: DateTime)

  /** The detail-view projection: the summary's header plus items and adjustments. */
  datatype InvoiceDetailDto = InvoiceDetailDto(
    invoiceNumber: string,
    issuedDate: DateTime,
    vendorName: string,
    totalAmount: Decimal,
    lastEdited: DateTime,
    items: seq<InvoiceItemDto>,
    adjustments: seq<InvoiceAdjustmentDto>)
  {
    /** The header fields a detail shares with a summary. */
    function Header(): InvoiceSummaryDto {
      InvoiceSummaryDto(invoiceNumber, issuedDate, vendorName, totalAmount, lastEdited)
    }
  }
}
