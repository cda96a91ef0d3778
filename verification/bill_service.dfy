/**
 * The bill service over the bill repository: create with status Pending,
 * partial update where only the supplied fields change, delete that
 * reports whether the bill existed, status filtering by a status name
 * read case-insensitively, and the projection to the API's bill DTO.
 */
module BillService {
  import opened Common
  import opened BillRepository

  datatype CreateBillDto = CreateBillDto(
    vendorName: string,
    invoiceNumber: string,
    amount: Decimal,
    billDate: DateTime,
    dueDate: Option<DateTime>,
    description: Option<string>)

  /** A partial update: `None` means "not supplied". */
  datatype UpdateBillDto = UpdateBillDto(
    vendorName: Option<string>,
    invoiceNumber: Option<string>,
    amount: Option<Decimal>,
    billDate: Option<DateTime>,
    dueDate: Option<DateTime>,
    description: Option<string>,
    status: Option<string>)

  const EmptyPatch: UpdateBillDto := UpdateBillDto(None, None, None, None, None, None, None)

  datatype BillDto = BillDto(
    id: int,
    vendorName: string,
    invoiceNumber: string,
    amount: Decimal,
    billDate: DateTime,
    dueDate: Option<DateTime>,
    description: Option<string>,
    status: string,
    createdAt: DateTime,
    updatedAt: Option<DateTime>)

  /** The enum member's name, as `ToString()` renders it. */
  function StatusName(s: BillStatus): string {
    match s
    case Pending => "Pending"
    case Processed => "Processed"
    case Paid => "Paid"
    case Overdue => "Overdue"
    case Cancelled => "Cancelled"
  }

  /** The name match of `Enum.TryParse` with `ignoreCase: true`. */
  function ParseName(name: string): (r: Option<BillStatus>)
    ensures r.Some? ==> Lower(name) == Lower(StatusName(r.value))
    ensures r.None? ==> forall s :: Lower(name) != Lower(StatusName(s))
  {
    var t := Lower(name);
    if t == "pending" then Some(Pending)
    else if t == "processed" then Some(Processed)
    else if t == "paid" then Some(Paid)
    else if t == "overdue" then Some(Overdue)
    else if t == "cancelled" then Some(Cancelled)
    else None
  }

  /**
   * `Enum.TryParse<BillStatus>(text, ignoreCase: true)`, for member names:
   * white space around the name is ignored, and so is letter case.
   */
  function ParseStatus(text: string): (r: Option<BillStatus>)
    ensures r.Some? ==> Lower(Trim(text)) == Lower(StatusName(r.value))
    ensures r.None? ==> forall s :: Lower(Trim(text)) != Lower(StatusName(s))
  {
    ParseName(Trim(text))
  }

  /** Every status name reads back as its status, in any letter case. */
  lemma ParseStatusName(s: BillStatus, text: string)
    ensures ParseStatus(StatusName(s)) == Some(s)
    ensures Lower(Trim(text)) == Lower(StatusName(s)) ==> ParseStatus(text) == Some(s)
  {
    NameIsTrimmed(s);
    ParseNameReads(s, StatusName(s));
    ParseNameReads(s, Trim(text));
  }

  /** A name that lowers to a status's lowered name reads as that status. */
  lemma ParseNameReads(s: BillStatus, name: string)
    ensures Lower(name) == Lower(StatusName(s)) ==> ParseName(name) == Some(s)
  {
    match s
    case Pending => assert Lower(StatusName(Pending)) == "pending";
    case Processed => assert Lower(StatusName(Processed)) == "processed";
    case Paid => assert Lower(StatusName(Paid)) == "paid";
    case Overdue => assert Lower(StatusName(Overdue)) == "overdue";
    case Cancelled => assert Lower(StatusName(Cancelled)) == "cancelled";
  }

  /** A status name has no white space at either end, so trimming keeps it. */
  lemma NameIsTrimmed(s: BillStatus)
    ensures Trim(StatusName(s)) == StatusName(s)
  {
    var name := StatusName(s);
    assert !IsWhiteSpace(name[0]) && !IsWhiteSpace(name[|name| - 1]);
    TrimDropsPadding("", name, "");
    assert "" + name + "" == name;
  }

  /** A name padded with white space on either side still parses, as `Enum.TryParse` trims its input. */
  lemma ParseStatusIgnoresPadding(s: BillStatus, before: string, after: string)
    requires AllWhiteSpace(before) && AllWhiteSpace(after)
    ensures ParseStatus(before + StatusName(s) + after) == Some(s)
  {
    var name := StatusName(s);
    assert !IsWhiteSpace(name[0]) && !IsWhiteSpace(name[|name| - 1]);
    TrimDropsPadding(before, name, after);
    ParseStatusName(s, before + name + after);
  }

  /** `MapToDto`: every field copied, the status rendered as its name. */
  function MapToDto(b: Bill): (d: BillDto)
    ensures d.id == b.id && d.amount == b.amount && d.dueDate == b.dueDate
    ensures d.status == StatusName(b.status)
    ensures ParseStatus(d.status) == Some(b.status)
  {
    ParseStatusName(b.status, StatusName(b.status));
    BillDto(b.id, b.vendorName, b.invoiceNumber, b.amount, b.billDate, b.dueDate, b.description,
      StatusName(b.status), b.createdAt, b.updatedAt)
  }

  /** The bill a DTO was made from; the partner of `MapToDto`. */
  function BillOfDto(d: BillDto): Option<Bill> {
    match ParseStatus(d.status)
    case None => None
    case Some(s) => Some(Bill(d.id, d.vendorName, d.invoiceNumber, d.amount, d.billDate, d.dueDate,
      d.description, s, d.createdAt, d.updatedAt))
  }

  /** No information is lost in the DTO. */
  lemma MapToDtoRoundTrip(b: Bill)
    ensures BillOfDto(MapToDto(b)) == Some(b)
  {
  }

  /** The patch merge of `UpdateBillAsync`: a supplied field overwrites, an absent one is kept. */
  function ApplyPatch(b: Bill, p: UpdateBillDto): (r: Bill)
    ensures r.vendorName == p.vendorName.GetOr(b.vendorName)
    ensures r.invoiceNumber == p.invoiceNumber.GetOr(b.invoiceNumber)
    ensures r.amount == p.amount.GetOr(b.amount)
    ensures r.billDate == p.billDate.GetOr(b.billDate)
    ensures r.dueDate == (if p.dueDate.Some? then p.dueDate else b.dueDate)
    ensures r.description == (if p.description.Some? then p.description else b.description)
    ensures p.status.Some? && ParseStatus(p.status.value).Some? ==> r.status == ParseStatus(p.status.value).value
    ensures p.status.None? || ParseStatus(p.status.value).None? ==> r.status == b.status
    ensures r.id == b.id && r.createdAt == b.createdAt && r.updatedAt == b.updatedAt
  {
    var status :=
      if p.status.Some? && ParseStatus(p.status.value).Some? then ParseStatus(p.status.value).value else b.status;
    b.(vendorName := p.vendorName.GetOr(b.vendorName),
       invoiceNumber := p.invoiceNumber.GetOr(b.invoiceNumber),
       amount := p.amount.GetOr(b.amount),
       billDate := p.billDate.GetOr(b.billDate),
       dueDate := if p.dueDate.Some? then p.dueDate else b.dueDate,
       description := if p.description.Some? then p.description else b.description,
       status := status)
  }

  /** An empty patch changes nothing; applying a patch twice is applying it once. */
  lemma PatchLaws(b: Bill, p: UpdateBillDto)
    ensures ApplyPatch(b, EmptyPatch) == b
    ensures ApplyPatch(ApplyPatch(b, p), p) == ApplyPatch(b, p)
  {
  }

  /** A due date can be set by an update but never cleared. */
  lemma DueDateNeverCleared(b: Bill, p: UpdateBillDto)
    ensures b.dueDate.Some? ==> ApplyPatch(b, p).dueDate.Some?
  {
  }

  /** `CreateBillAsync`: the request's fields, status Pending, created now. */
  function CreateBill(bs: Bills, dto: CreateBillDto, now: DateTime): (r: (Bills, BillDto))
    ensures |r.0| == |bs| + 1 && r.0[..|bs|] == bs
    ensures var stored := r.0[|bs|];
      && stored.vendorName == dto.vendorName && stored.invoiceNumber == dto.invoiceNumber
      && stored.amount == dto.amount && stored.billDate == dto.billDate
      && stored.dueDate == dto.dueDate && stored.description == dto.description
      && stored.status == Pending && stored.createdAt == now && stored.updatedAt.None?
      && r.1 == MapToDto(stored)
    ensures forall j :: 0 <= j < |bs| ==> bs[j].id != r.0[|bs|].id
  {
    var bill := Bill(0, dto.vendorName, dto.invoiceNumber, dto.amount, dto.billDate, dto.dueDate,
      dto.description, Pending, now, None);
    var (t, created) := Add(bs, bill);
    assert t[..|bs|] == bs;
    (t, MapToDto(created))
  }

  /**
   * `UpdateBillAsync`: a missing id returns null and writes nothing;
   * otherwise the patched bill is written with the update time stamped.
   */
  function UpdateBill(bs: Bills, id: int, p: UpdateBillDto, now: DateTime): (r: (Option<BillDto>, Bills))
    ensures GetById(bs, id).None? ==> r == (None, bs)
    ensures GetById(bs, id).Some? ==>
      var updated := ApplyPatch(GetById(bs, id).value, p).(updatedAt := Some(now));
      && r.0 == Some(MapToDto(updated))
      && exists i :: 0 <= i < |bs| && bs[i].id == id && r.1 == bs[i := updated]
    ensures UniqueIds(bs) ==> UniqueIds(r.1)
  {
    match GetById(bs, id)
    case None => (None, bs)
    case Some(existing) =>
      var patched := ApplyPatch(existing, p);
      match Update(bs, patched, now)
      case None => (None, bs)
      case Some((t, updated)) => (Some(MapToDto(updated)), t)
  }

  /** `DeleteBillAsync`: false and no store call for a missing bill, otherwise the bill is removed. */
  function DeleteBill(bs: Bills, id: int): (r: (bool, Bills))
    ensures !r.0 <==> GetById(bs, id).None?
    ensures !r.0 ==> r.1 == bs
    ensures r.0 ==> r.1 == Delete(bs, id) && |r.1| == |bs| - 1
  {
    if GetById(bs, id).None? then (false, bs) else (true, Delete(bs, id))
  }

  /** `GetBillsByStatusAsync`: empty for an unknown status name, otherwise the matching bills in order. */
  function GetBillsByStatus(bs: Bills, status: string): (r: seq<BillDto>)
    ensures ParseStatus(status).None? ==> r == []
    ensures ParseStatus(status).Some? ==>
      |r| == |GetByStatus(bs, ParseStatus(status).value)|
      && forall i :: 0 <= i < |r| ==> r[i] == MapToDto(GetByStatus(bs, ParseStatus(status).value)[i])
    ensures forall d :: d in r ==> ParseStatus(d.status) == ParseStatus(status)
  {
    match ParseStatus(status)
    case None => []
    case Some(s) =>
      var matching := GetByStatus(bs, s);
      var r := MapAll(matching);
      assert forall i :: 0 <= i < |matching| ==> matching[i] in matching;
      r
  }

  /** Every bill of a sequence as its DTO, in order. */
  function MapAll(bills: seq<Bill>): (r: seq<BillDto>)
    ensures |r| == |bills|
    ensures forall i :: 0 <= i < |r| ==> r[i] == MapToDto(bills[i])
    ensures forall d :: d in r ==> exists i :: 0 <= i < |bills| && ParseStatus(d.status) == Some(bills[i].status)
  {
    var r := seq(|bills|, i requires 0 <= i < |bills| => MapToDto(bills[i]));
    assert forall i :: 0 <= i < |r| ==> ParseStatus(r[i].status) == Some(bills[i].status);
    r
  }

  /** `GetAllBillsAsync`: every bill, as DTOs, in table order. */
  function GetAllBills(bs: Bills): (r: seq<BillDto>)
    ensures |r| == |bs|
    ensures forall i :: 0 <= i < |bs| ==> BillOfDto(r[i]) == Some(bs[i])
    ensures forall i :: 0 <= i < |bs| ==> r[i].status == StatusName(bs[i].status)
    ensures forall i :: 0 <= i < |bs| ==> r[i] == MapToDto(bs[i])
  {
    MapAll(GetAll(bs))
  }

  /** `GetBillByIdAsync`: the bill's DTO, or null. */
  function GetBillById(bs: Bills, id: int): (r: Option<BillDto>)
    ensures r.None? <==> GetById(bs, id).None?
    ensures r.Some? ==> r.value.id == id && BillOfDto(r.value) == GetById(bs, id)
    ensures r.Some? ==> r.value.status == StatusName(GetById(bs, id).value.status)
    ensures r.Some? ==> r.value == MapToDto(GetById(bs, id).value)
  {
    match GetById(bs, id)
    case None => None
    case Some(b) => Some(MapToDto(b))
  }

  /**
   * Updating a bill changes exactly the supplied fields and the update
   * time, keeps its id, and leaves every other bill as it was.
   */
  lemma UpdateChangesOnlySupplied(bs: Bills, id: int, p: UpdateBillDto, now: DateTime)
    requires GetById(bs, id).Some?
    ensures var before := GetById(bs, id).value;
      var after := UpdateBill(bs, id, p, now).0.value;
      && after.id == id
      && after.createdAt == before.createdAt
      && after.updatedAt == Some(now)
      && (p.vendorName.None? ==> after.vendorName == before.vendorName)
      && (p.vendorName.Some? ==> after.vendorName == p.vendorName.value)
      && (p.invoiceNumber.None? ==> after.invoiceNumber == before.invoiceNumber)
      && (p.invoiceNumber.Some? ==> after.invoiceNumber == p.invoiceNumber.value)
      && (p.amount.None? ==> after.amount == before.amount)
      && (p.amount.Some? ==> after.amount == p.amount.value)
      && (p.billDate.None? ==> after.billDate == before.billDate)
      && (p.billDate.Some? ==> after.billDate == p.billDate.value)
      && (p.dueDate.None? ==> after.dueDate == before.dueDate)
      && (p.dueDate.Some? ==> after.dueDate == p.dueDate)
      && (p.description.None? ==> after.description == before.description)
      && (p.description.Some? ==> after.description == p.description)
      && (p.status.None? ==> after.status == StatusName(before.status))
    ensures |UpdateBill(bs, id, p, now).1| == |bs|
    ensures forall j :: 0 <= j < |bs| && bs[j].id != id ==> UpdateBill(bs, id, p, now).1[j] == bs[j]
  {
  }
}
