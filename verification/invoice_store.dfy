/**
 * The SQL invoice repository with soft-delete semantics. The table is a
 * sequence of rows in insertion order; a row is active while its
 * `deletedAt` tombstone is absent. Lookups see only active rows, delete
 * sets the tombstone instead of removing the row, and the database's
 * unique index on the invoice number covers every row, tombstoned ones
 * included, so an insert of a number already present fails.
 */
module InvoiceStore {
  import opened Common
  import opened InvoiceModels

  type Store = seq<Invoice>

  predicate ActiveWith(inv: Invoice, n: string) {
    inv.IsActive() && inv.invoiceNumber == n
  }

  /** Some row, active or not, carries invoice number `n`. */
  predicate HasNumber(s: Store, n: string) {
    exists i :: 0 <= i < |s| && s[i].invoiceNumber == n
  }

  /** The unique index on `InvoiceNumber`: no two rows share a number. */
  ghost predicate Unique(s: Store) {
    forall i, j :: 0 <= i < j < |s| ==> s[i].invoiceNumber != s[j].invoiceNumber
  }

  /** The position of the first active row with number `n`, if any. */
  function FirstActiveIndex(s: Store, n: string): (r: Option<nat>)
    ensures r.Some? ==> r.value < |s| && ActiveWith(s[r.value], n)
    ensures r.Some? ==> forall j :: 0 <= j < r.value ==> !ActiveWith(s[j], n)
    ensures r.None? <==> forall j :: 0 <= j < |s| ==> !ActiveWith(s[j], n)
    decreases |s|
  {
    if |s| == 0 then None
    else if ActiveWith(s[0], n) then Some(0)
    else match FirstActiveIndex(s[1..], n)
      case None => None
      case Some(k) => Some(k + 1)
  }

  /** `GetByInvoiceNumberAsync`: the first active row with that number. */
  function GetByInvoiceNumber(s: Store, n: string): (r: Option<Invoice>)
    ensures r.Some? ==> r.value in s && ActiveWith(r.value, n)
    ensures r.None? <==> forall j :: 0 <= j < |s| ==> !ActiveWith(s[j], n)
  {
    match FirstActiveIndex(s, n)
    case None => None
    case Some(i) => Some(s[i])
  }

  /** `GetAllAsync`: the active rows, in table order. */
  function GetAll(s: Store): (r: seq<Invoice>)
    ensures forall inv :: inv in r <==> inv in s && inv.IsActive()
    ensures |r| <= |s|
  {
    if |s| == 0 then []
    else if s[0].IsActive() then [s[0]] + GetAll(s[1..])
    else GetAll(s[1..])
  }

  /**
   * A `character varying(n)` column of PostgreSQL takes a text of at most
   * `n` characters; a longer one only when the excess is all spaces.
   */
  predicate FitsLength(text: string, n: nat) {
    |text| <= n || forall i :: n <= i < |text| ==> text[i] == ' '
  }

  /**
   * What a `character varying(n)` column keeps of a text that fits: the
   * text itself, or its first `n` characters when only spaces follow.
   */
  function Clip(text: string, n: nat): (r: string)
    ensures |r| <= |text| && r == text[..|r|]
    ensures FitsLength(text, n) ==> |r| <= n && forall i :: |r| <= i < |text| ==> text[i] == ' '
    ensures |text| <= n ==> r == text
  {
    if |text| <= n then text else text[..n]
  }

  /**
   * The magnitude from which a `numeric(18, 2)` column overflows: sixteen
   * digits before the point, after rounding half away from zero to cents.
   */
  const AmountBound: real := 9999999999999999.995

  /**
   * The row fits the invoice table's columns: the number in
   * `varchar(100)`, the vendor in `varchar(200)`, the total in
   * `numeric(18, 2)`. The items are stored as JSON, which has no limit.
   */
  predicate Fits(inv: Invoice) {
    && FitsLength(inv.invoiceNumber, 100)
    && FitsLength(inv.vendorName, 200)
    && -AmountBound < inv.totalAmount < AmountBound
  }

  /** The row the invoice table keeps of an invoice that fits: the number and vendor clipped to their columns. */
  function Stored(inv: Invoice): (r: Invoice)
    ensures r.invoiceNumber == Clip(inv.invoiceNumber, 100) && r.vendorName == Clip(inv.vendorName, 200)
    ensures r == inv.(invoiceNumber := r.invoiceNumber, vendorName := r.vendorName)
    ensures |inv.invoiceNumber| <= 100 && |inv.vendorName| <= 200 ==> r == inv
  {
    inv.(invoiceNumber := Clip(inv.invoiceNumber, 100), vendorName := Clip(inv.vendorName, 200))
  }

  /**
   * The outcome of an insert: the new table and the stored row, a value
   * the columns cannot hold, or a unique-key violation.
   */
  datatype Insertion = Inserted(store: Store, row: Invoice) | ColumnOverflow | UniqueViolation

  /**
   * `CreateAsync`: appends the row. The database converts the values to
   * the column types before the unique index sees the row, so a value that
   * does not fit is reported first; a space-padded number or vendor is
   * clipped, and the unique index then rejects a clipped number some row
   * already carries. `row` is the row as stored.
   */
  function Create(s: Store, inv: Invoice): (r: Insertion)
    ensures r.ColumnOverflow? <==> !Fits(inv)
    ensures r.UniqueViolation? <==> Fits(inv) && HasNumber(s, Stored(inv).invoiceNumber)
    ensures r.Inserted? <==> Fits(inv) && !HasNumber(s, Stored(inv).invoiceNumber)
    ensures r.Inserted? ==> r.row == Stored(inv) && |r.store| == |s| + 1
    ensures r.Inserted? ==> r.store[..|s|] == s && r.store[|s|] == r.row
  {
    if !Fits(inv) then ColumnOverflow
    else if HasNumber(s, Stored(inv).invoiceNumber) then UniqueViolation
    else Inserted(s + [Stored(inv)], Stored(inv))
  }

  /**
   * A number padded past the column's length with one space is clipped to
   * the number of an existing row, so the unique index rejects it.
   */
  lemma PaddedNumberClashes(s: Store, inv: Invoice, i: nat)
    requires i < |s| && |s[i].invoiceNumber| == 100
    requires inv.invoiceNumber == s[i].invoiceNumber + " "
    requires FitsLength(inv.vendorName, 200) && -AmountBound < inv.totalAmount < AmountBound
    ensures Create(s, inv).UniqueViolation?
  {
    assert inv.invoiceNumber[..100] == s[i].invoiceNumber;
    assert FitsLength(inv.invoiceNumber, 100) by {
      assert inv.invoiceNumber[100] == ' ';
    }
  }

  /** Trailing spaces past the limit are accepted; any other excess is not. */
  lemma FitsLengthExample()
    ensures FitsLength("ab  ", 2) && !FitsLength("abc ", 2)
  {
    assert "abc "[2] == 'c';
  }

  /** The outcome of a soft delete: whether a row was deleted, and the new table. */
  datatype Deletion = Deletion(deleted: bool, store: Store)

  /**
   * `DeleteAsync`: tombstones the first active row with that number at time
   * `now` and reports whether there was one.
   */
  function Delete(s: Store, n: string, now: DateTime): (r: Deletion)
    ensures !r.deleted <==> GetByInvoiceNumber(s, n).None?
    ensures !r.deleted ==> r.store == s
    ensures |r.store| == |s|
    ensures r.deleted ==> exists i :: (0 <= i < |s| && ActiveWith(s[i], n)
      && r.store[i] == s[i].(deletedAt := Some(now))
      && forall j :: 0 <= j < |s| && j != i ==> r.store[j] == s[j])
  {
    match FirstActiveIndex(s, n)
    case None => Deletion(false, s)
    case Some(i) => Deletion(true, s[i := s[i].(deletedAt := Some(now))])
  }

  /** The active rows of a concatenation are the active rows of each part, in order. */
  lemma {:induction false} GetAllDistributes(a: Store, b: Store)
    ensures GetAll(a + b) == GetAll(a) + GetAll(b)
    decreases |a|
  {
    if |a| == 0 {
      assert a + b == b;
    } else {
      assert (a + b)[1..] == a[1..] + b;
      GetAllDistributes(a[1..], b);
    }
  }

  /** Rows with other numbers are not affected by a change to the rows with number `n`. */
  lemma {:induction false} LookupIgnoresOtherNumbers(s: Store, t: Store, n: string, m: string)
    requires |s| == |t| && m != n
    requires forall i :: 0 <= i < |s| ==> (s[i] == t[i] || (s[i].invoiceNumber == n && t[i].invoiceNumber == n))
    ensures GetByInvoiceNumber(t, m) == GetByInvoiceNumber(s, m)
    decreases |s|
  {
    if |s| > 0 && !ActiveWith(s[0], m) {
      LookupIgnoresOtherNumbers(s[1..], t[1..], n, m);
    }
  }

  /** A row appended with number `n` leaves the lookups of every other number as they were. */
  lemma {:induction false} LookupPastAppend(s: Store, inv: Invoice, m: string)
    requires inv.invoiceNumber != m
    ensures GetByInvoiceNumber(s + [inv], m) == GetByInvoiceNumber(s, m)
    decreases |s|
  {
    if |s| == 0 {
    } else if !ActiveWith(s[0], m) {
      assert (s + [inv])[1..] == s[1..] + [inv];
      LookupPastAppend(s[1..], inv, m);
    }
  }

  /**
   * After a successful insert of an active row, the lookup of its stored
   * number finds exactly the stored row, and no other number's lookup
   * changes.
   */
  lemma CreateThenLookup(s: Store, inv: Invoice, m: string)
    requires inv.IsActive()
    requires Create(s, inv).Inserted?
    ensures GetByInvoiceNumber(Create(s, inv).store, Stored(inv).invoiceNumber) == Some(Stored(inv))
    ensures m != Stored(inv).invoiceNumber ==>
      GetByInvoiceNumber(Create(s, inv).store, m) == GetByInvoiceNumber(s, m)
  {
    var row := Stored(inv);
    var t := s + [row];
    assert forall j :: 0 <= j < |s| ==> t[j] == s[j];
    if m != row.invoiceNumber {
      LookupPastAppend(s, row, m);
    }
  }

  /** Inserting keeps the number unique. */
  lemma CreateKeepsUnique(s: Store, inv: Invoice)
    requires Unique(s)
    ensures Create(s, inv).Inserted? ==> Unique(Create(s, inv).store)
  {
  }

  /** A soft delete changes no invoice number, so it keeps the numbers unique. */
  lemma DeleteKeepsUnique(s: Store, n: string, now: DateTime)
    requires Unique(s)
    ensures Unique(Delete(s, n, now).store)
  {
    var r := Delete(s, n, now);
    assert forall i :: 0 <= i < |s| ==> r.store[i].invoiceNumber == s[i].invoiceNumber;
  }

  /** A soft delete leaves the lookup of every other number as it was. */
  lemma DeleteKeepsOtherLookups(s: Store, n: string, now: DateTime, m: string)
    requires m != n
    ensures GetByInvoiceNumber(Delete(s, n, now).store, m) == GetByInvoiceNumber(s, m)
  {
    LookupIgnoresOtherNumbers(s, Delete(s, n, now).store, n, m);
  }

  /**
   * A deleted row is gone for good: with unique numbers, neither lookup
   * sees the number after a delete, and deleting it again reports false
   * and changes nothing.
   */
  lemma DeleteHidesRow(s: Store, n: string, now: DateTime, later: DateTime)
    requires Unique(s)
    ensures var t := Delete(s, n, now).store;
      && GetByInvoiceNumber(t, n).None?
      && (forall inv :: inv in GetAll(t) ==> inv.invoiceNumber != n)
      && !Delete(t, n, later).deleted
      && Delete(t, n, later).store == t
  {
    var r := Delete(s, n, now);
    var t := r.store;
    forall j | 0 <= j < |t|
      ensures !ActiveWith(t[j], n)
    {
      if r.deleted {
        var i :| 0 <= i < |s| && ActiveWith(s[i], n)
          && t[i] == s[i].(deletedAt := Some(now))
          && forall k :: 0 <= k < |s| && k != i ==> t[k] == s[k];
        if j != i {
          assert s[j].invoiceNumber != s[i].invoiceNumber;
        }
      }
    }
  }

  /**
   * A concrete example: deleting keeps the row, hides it from the lookup
   * and the list, and its number still blocks a new insert.
   */
  lemma SoftDeleteExample()
    ensures var a := Invoice(1, "INV-1", 0, "Acme", 10.0, [], [], 0, None, None);
      var d := Delete([a], "INV-1", 5);
      && d.deleted
      && d.store == [a.(deletedAt := Some(5))]
      && GetByInvoiceNumber(d.store, "INV-1").None?
      && GetAll(d.store) == []
      && Create(d.store, a).UniqueViolation?
  {
    var a := Invoice(1, "INV-1", 0, "Acme", 10.0, [], [], 0, None, None);
    assert FirstActiveIndex([a], "INV-1") == Some(0);
    var t := [a.(deletedAt := Some(5))];
    assert t[0].invoiceNumber == "INV-1";
  }
}
