/**
 * The bill entity and its repository over the bills table, modelled as a
 * sequence of rows in table order. The database assigns a fresh id on
 * insert; update stamps the update time; delete of a missing id does
 * nothing.
 */
module BillRepository {
  import opened Common

  datatype BillStatus = Pending | Processed | Paid | Overdue | Cancelled

  datatype Bill = Bill(
    id: int,
    vendorName: string,
    invoiceNumber: string,
    amount: Decimal,
    billDate: DateTime,
    dueDate: Option<DateTime>,
    description: Option<string>,
    status: BillStatus,
    createdAt: DateTime,
    updatedAt: Option<DateTime>)

  type Bills = seq<Bill>

  /** The primary key: no two rows share an id. */
  ghost predicate UniqueIds(bs: Bills) {
    forall i, j :: 0 <= i < j < |bs| ==> bs[i].id != bs[j].id
  }

  /** `GetAllAsync`: every stored bill, in table order. */
  function GetAll(bs: Bills): (r: seq<Bill>)
    ensures |r| == |bs|
    ensures forall i :: 0 <= i < |bs| ==> r[i] == bs[i]
  {
    bs
  }

  /** The position of the first row with that id. */
  function IndexOfId(bs: Bills, id: int): (r: Option<nat>)
    ensures r.Some? ==> r.value < |bs| && bs[r.value].id == id
    ensures r.Some? ==> forall j :: 0 <= j < r.value ==> bs[j].id != id
    ensures r.None? <==> forall j :: 0 <= j < |bs| ==> bs[j].id != id
    decreases |bs|
  {
    if |bs| == 0 then None
    else if bs[0].id == id then Some(0)
    else match IndexOfId(bs[1..], id)
      case None => None
      case Some(k) => Some(k + 1)
  }

  /** `GetByIdAsync`: the bill with that id, or null. */
  function GetById(bs: Bills, id: int): (r: Option<Bill>)
    ensures r.Some? ==> r.value in bs && r.value.id == id
    ensures r.None? <==> forall j :: 0 <= j < |bs| ==> bs[j].id != id
  {
    match IndexOfId(bs, id)
    case None => None
    case Some(i) => Some(bs[i])
  }

  /** The id the database gives the next inserted row: above every id in use. */
  function NextId(bs: Bills): (r: int)
    ensures r >= 1
    ensures forall j :: 0 <= j < |bs| ==> bs[j].id < r
    decreases |bs|
  {
    if |bs| == 0 then 1
    else
      var rest := NextId(bs[1..]);
      if bs[0].id >= rest then bs[0].id + 1 else rest
  }

  /** `AddAsync`: stores the bill under a fresh id and returns the stored bill. */
  function Add(bs: Bills, b: Bill): (r: (Bills, Bill))
    ensures r.1 == b.(id := r.1.id)
    ensures forall j :: 0 <= j < |bs| ==> bs[j].id != r.1.id
    ensures r.0 == bs + [r.1]
  {
    var stored := b.(id := NextId(bs));
    (bs + [stored], stored)
  }

  /**
   * `UpdateAsync`: stamps the update time and writes the bill over the row
   * with its id; `None` where the database reports that no row was updated.
   */
  function Update(bs: Bills, b: Bill, now: DateTime): (r: Option<(Bills, Bill)>)
    ensures r.None? <==> GetById(bs, b.id).None?
    ensures r.Some? ==> r.value.1 == b.(updatedAt := Some(now))
    ensures r.Some? ==> |r.value.0| == |bs|
    ensures r.Some? ==> exists i :: 0 <= i < |bs| && bs[i].id == b.id && r.value.0 == bs[i := r.value.1]
    ensures r.Some? && UniqueIds(bs) ==> UniqueIds(r.value.0)
  {
    match IndexOfId(bs, b.id)
    case None => None
    case Some(i) =>
      var stamped := b.(updatedAt := Some(now));
      assert forall j :: 0 <= j < |bs| ==> bs[i := stamped][j].id == bs[j].id;
      Some((bs[i := stamped], stamped))
  }

  /** `DeleteAsync`: removes the row with that id; a missing id changes nothing. */
  function Delete(bs: Bills, id: int): (r: Bills)
    ensures GetById(bs, id).None? ==> r == bs
    ensures GetById(bs, id).Some? ==> |r| == |bs| - 1
    ensures GetById(bs, id).Some? ==> exists i :: (0 <= i < |bs| && bs[i].id == id && r == bs[..i] + bs[i + 1..])
  {
    match IndexOfId(bs, id)
    case None => bs
    case Some(i) => bs[..i] + bs[i + 1..]
  }

  /** `GetByStatusAsync`: the bills with that status, in table order. */
  function GetByStatus(bs: Bills, status: BillStatus): (r: seq<Bill>)
    ensures forall b :: b in r <==> b in bs && b.status == status
    ensures |r| <= |bs|
    decreases |bs|
  {
    if |bs| == 0 then []
    else if bs[0].status == status then [bs[0]] + GetByStatus(bs[1..], status)
    else GetByStatus(bs[1..], status)
  }

  /** Filtering by status keeps table order: it distributes over concatenation. */
  lemma {:induction false} GetByStatusDistributes(a: Bills, b: Bills, status: BillStatus)
    ensures GetByStatus(a + b, status) == GetByStatus(a, status) + GetByStatus(b, status)
    decreases |a|
  {
    if |a| == 0 {
      assert a + b == b;
    } else {
      assert (a + b)[1..] == a[1..] + b;
      GetByStatusDistributes(a[1..], b, status);
    }
  }

  /** After `Add`, looking up the returned id yields the stored bill, and ids stay unique. */
  lemma AddThenGet(bs: Bills, b: Bill)
    requires UniqueIds(bs)
    ensures var (t, stored) := Add(bs, b);
      GetById(t, stored.id) == Some(stored) && UniqueIds(t)
  {
    var (t, stored) := Add(bs, b);
    assert forall j :: 0 <= j < |bs| ==> t[j] == bs[j];
    assert t[|bs|] == stored;
  }

  /** With unique ids, the lookup of a row's id returns that row. */
  lemma LookupFindsTheRow(bs: Bills, k: nat)
    requires UniqueIds(bs) && k < |bs|
    ensures GetById(bs, bs[k].id) == Some(bs[k])
  {
    var i := IndexOfId(bs, bs[k].id).value;
    assert !(i < k) && !(k < i);
  }

  /** Deleting a row keeps the others in order: position `j` of the result is `bs[j]` or `bs[j + 1]`. */
  lemma DeleteShifts(bs: Bills, id: int, i: nat)
    requires IndexOfId(bs, id) == Some(i)
    ensures |Delete(bs, id)| == |bs| - 1
    ensures forall j :: 0 <= j < i ==> Delete(bs, id)[j] == bs[j]
    ensures forall j :: i <= j < |bs| - 1 ==> Delete(bs, id)[j] == bs[j + 1]
  {
  }

  /** With unique ids, a deleted bill is gone and every other bill is still found. */
  lemma DeleteRemovesOnlyThatBill(bs: Bills, id: int, other: int)
    requires UniqueIds(bs)
    ensures GetById(Delete(bs, id), id).None?
    ensures other != id ==> GetById(Delete(bs, id), other) == GetById(bs, other)
    ensures UniqueIds(Delete(bs, id))
  {
    var r := Delete(bs, id);
    match IndexOfId(bs, id)
    case None =>
    case Some(i) =>
      DeleteShifts(bs, id, i);
      assert UniqueIds(r) by {
        forall a, b | 0 <= a < b < |r|
          ensures r[a].id != r[b].id
        {
          var a0 := if a < i then a else a + 1;
          var b0 := if b < i then b else b + 1;
          assert r[a] == bs[a0] && r[b] == bs[b0] && a0 < b0;
        }
      }
      assert forall j :: 0 <= j < |r| ==> r[j].id != id by {
        forall j | 0 <= j < |r|
          ensures r[j].id != id
        {
          var j0 := if j < i then j else j + 1;
          assert r[j] == bs[j0] && j0 != i;
        }
      }
      if other != id {
        match GetById(bs, other)
        case None =>
          assert forall j :: 0 <= j < |r| ==> r[j].id != other by {
            forall j | 0 <= j < |r|
              ensures r[j].id != other
            {
              var j0 := if j < i then j else j + 1;
              assert r[j] == bs[j0];
            }
          }
        case Some(found) =>
          var k := IndexOfId(bs, other).value;
          var k' := if k < i then k else k - 1;
          assert r[k'] == bs[k];
          LookupFindsTheRow(r, k');
      }
  }
}
