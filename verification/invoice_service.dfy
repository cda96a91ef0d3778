/**
 * `InvoiceService`: cache-aside reads and write-through commands over the
 * soft-delete store and the invoice cache. Concurrent cache writes of one
 * operation touch distinct keys and are modelled in sequence: detail,
 * then summary, then the list.
 *
 * The store's lookup of a soft-deleted row and its restore operation are
 * not part of this model; the service receives them as a `RestoreGateway`
 * of two functions, and the coherence proof for `Create` states what it
 * assumes of them (`Lawful`).
 */
module InvoiceService {
  import opened Common
  import opened InvoiceModels
  import opened InvoiceMapping
  import S = InvoiceStore
  import C = InvoiceCache

  /** The two stateful collaborators of the service. */
  datatype Backend = Backend(store: S.Store, cache: C.Cache)

  /**
   * The outcome of a service call: its value and the new backend, or an
   * exception (an undecodable cache document, a value the columns cannot
   * hold, a unique-key violation) raised before anything was written, so
   * the backend is unchanged.
   */
  datatype Reply<T> = Completed(value: T, after: Backend) | Threw

  /** `GetDeletedByInvoiceNumberAsync` and `RestoreAsync` of the store. */
  datatype RestoreGateway = RestoreGateway(
    findDeleted: (S.Store, string) -> Option<Invoice>,
    restore: (S.Store, Invoice, Invoice) -> (S.Store, Invoice))

  /** Every number other than `n` is looked up alike in `s` and `t`. */
  ghost predicate AgreesOutside(s: S.Store, t: S.Store, n: string) {
    forall m :: m != n ==> S.GetByInvoiceNumber(t, m) == S.GetByInvoiceNumber(s, m)
  }

  /** The deleted-row finder returns a tombstoned row of the table carrying the number asked for. */
  predicate FindsDeleted(s: S.Store, n: string, r: Option<Invoice>) {
    r.Some? ==> r.value in s && !r.value.IsActive() && r.value.invoiceNumber == n
  }

  /**
   * Restoring a tombstoned row with new data yields a row with that number
   * which is now the active row for it, leaves the other numbers' rows
   * alone and keeps the numbers unique.
   */
  ghost predicate Restores(s: S.Store, existing: Invoice, newData: Invoice, out: (S.Store, Invoice)) {
    (existing in s && !existing.IsActive() && existing.invoiceNumber == newData.invoiceNumber && S.Unique(s)) ==>
      && out.1.invoiceNumber == newData.invoiceNumber
      && S.GetByInvoiceNumber(out.0, newData.invoiceNumber) == Some(out.1)
      && AgreesOutside(s, out.0, newData.invoiceNumber)
      && S.Unique(out.0)
  }

  ghost predicate Lawful(g: RestoreGateway) {
    && (forall s, n :: FindsDeleted(s, n, g.findDeleted(s, n)))
    && (forall s, existing, newData :: Restores(s, existing, newData, g.restore(s, existing, newData)))
  }

  /** The position of the first occurrence of `row` in the table. */
  function IndexOf(s: S.Store, row: Invoice): (i: nat)
    requires row in s
    ensures i < |s| && s[i] == row
    ensures forall j :: 0 <= j < i ==> s[j] != row
  {
    if s[0] == row then 0 else 1 + IndexOf(s[1..], row)
  }

  /** A reference finder: the first tombstoned row with number `n`. */
  function FirstDeleted(s: S.Store, n: string): (r: Option<Invoice>)
    ensures FindsDeleted(s, n, r)
    ensures r.None? ==> forall j :: 0 <= j < |s| && s[j].invoiceNumber == n ==> s[j].IsActive()
  {
    if |s| == 0 then None
    else if !s[0].IsActive() && s[0].invoiceNumber == n then Some(s[0])
    else FirstDeleted(s[1..], n)
  }

  /**
   * A reference restore: the tombstoned row keeps its id and creation time,
   * takes the new data and loses its tombstone, in place.
   */
  function RestoreInPlace(s: S.Store, existing: Invoice, newData: Invoice): (S.Store, Invoice) {
    if existing in s then
      var row := newData.(id := existing.id, createdAt := existing.createdAt, deletedAt := None);
      (s[IndexOf(s, existing) := row], row)
    else
      (s, newData)
  }

  const ReferenceGateway: RestoreGateway :=
    RestoreGateway((s, n) => FirstDeleted(s, n), (s, e, d) => RestoreInPlace(s, e, d))

  /** The reference restore meets `Restores`, so `Lawful` can be met. */
  lemma RestoreInPlaceRestores(s: S.Store, existing: Invoice, newData: Invoice)
    ensures Restores(s, existing, newData, RestoreInPlace(s, existing, newData))
  {
    if existing in s && !existing.IsActive() && existing.invoiceNumber == newData.invoiceNumber && S.Unique(s) {
      var n := newData.invoiceNumber;
      var i := IndexOf(s, existing);
      var row := newData.(id := existing.id, createdAt := existing.createdAt, deletedAt := None);
      var t := s[i := row];
      assert forall j :: 0 <= j < |s| ==> t[j].invoiceNumber == s[j].invoiceNumber;
      assert S.Unique(t);
      match S.FirstActiveIndex(t, n)
      case None =>
        assert S.ActiveWith(t[i], n);
      case Some(j) =>
        assert j == i;
      forall m | m != n
        ensures S.GetByInvoiceNumber(t, m) == S.GetByInvoiceNumber(s, m)
      {
        S.LookupIgnoresOtherNumbers(s, t, n, m);
      }
    }
  }

  lemma ReferenceGatewayIsLawful()
    ensures Lawful(ReferenceGateway)
  {
    forall s, existing, newData
      ensures Restores(s, existing, newData, ReferenceGateway.restore(s, existing, newData))
    {
      RestoreInPlaceRestores(s, existing, newData);
    }
  }

  /** What the uncached lookup of `n` returns. */
  function DetailFromStore(s: S.Store, n: string): Option<InvoiceDetailDto> {
    match S.GetByInvoiceNumber(s, n)
    case None => None
    case Some(inv) => Some(MapToDetailDto(inv))
  }

  /**
   * `GetByInvoiceNumberAsync`: a cached detail is returned without touching
   * the store; on a miss the active row is mapped, its detail and summary
   * are cached under the requested number, and the detail is returned; a
   * store miss returns null and caches nothing.
   */
  function GetByInvoiceNumber(b: Backend, n: string): (r: Reply<Option<InvoiceDetailDto>>)
    ensures C.GetDetail(b.cache, n).Hit? ==> r == Completed(Some(C.GetDetail(b.cache, n).value), b)
    ensures C.GetDetail(b.cache, n).Undecodable? <==> r.Threw?
    ensures C.GetDetail(b.cache, n).Miss? && S.GetByInvoiceNumber(b.store, n).None? ==> r == Completed(None, b)
    ensures C.GetDetail(b.cache, n).Miss? && S.GetByInvoiceNumber(b.store, n).Some? ==>
      var inv := S.GetByInvoiceNumber(b.store, n).value;
      && r.Completed?
      && r.value == Some(MapToDetailDto(inv))
      && r.after.store == b.store
      && C.GetDetail(r.after.cache, n) == C.Hit(MapToDetailDto(inv))
      && C.GetSummary(r.after.cache, n) == C.Hit(MapToSummaryDto(inv))
      && r.after.cache.Keys == b.cache.Keys + {C.DetailKey(n), C.SummaryKey(n)}
      && forall k :: k in b.cache && k != C.DetailKey(n) && k != C.SummaryKey(n) ==> r.after.cache[k] == b.cache[k]
  {
    match C.GetDetail(b.cache, n)
    case Hit(d) => Completed(Some(d), b)
    case Undecodable => Threw
    case Miss =>
      match S.GetByInvoiceNumber(b.store, n)
      case None => Completed(None, b)
      case Some(inv) =>
        var detail := MapToDetailDto(inv);
        var cache := C.SetSummary(C.SetDetail(b.cache, n, detail), n, MapToSummaryDto(inv));
        C.KeyFamiliesDisjoint(n, n);
        Completed(Some(detail), Backend(b.store, cache))
  }

  /**
   * `GetAllAsync`: a cached list is returned without touching the store;
   * on a miss the summaries of all active rows are computed, stored as the
   * list and returned.
   */
  function GetAll(b: Backend): (r: Reply<seq<InvoiceSummaryDto>>)
    ensures C.GetAllSummaries(b.cache).Hit? ==> r == Completed(C.GetAllSummaries(b.cache).value, b)
    ensures C.GetAllSummaries(b.cache).Undecodable? <==> r.Threw?
    ensures C.GetAllSummaries(b.cache).Miss? ==>
      && r.Completed?
      && r.value == MapSummaries(S.GetAll(b.store))
      && r.after.store == b.store
      && C.GetAllSummaries(r.after.cache) == C.Hit(r.value)
      && r.after.cache.Keys == b.cache.Keys + {C.AllSummariesKey}
      && forall k :: k in b.cache && k != C.AllSummariesKey ==> r.after.cache[k] == b.cache[k]
  {
    match C.GetAllSummaries(b.cache)
    case Hit(l) => Completed(l, b)
    case Undecodable => Threw
    case Miss =>
      var summaries := MapSummaries(S.GetAll(b.store));
      Completed(summaries, Backend(b.store, C.SetAllSummaries(b.cache, summaries)))
  }

  /** The cache writes after a create or restore of `result`. */
  function CacheCreated(c: C.Cache, result: Invoice): (r: C.Cache)
    ensures C.GetDetail(r, result.invoiceNumber) == C.Hit(MapToDetailDto(result))
    ensures C.GetSummary(r, result.invoiceNumber) == C.Hit(MapToSummaryDto(result))
    ensures C.GetAllSummaries(r).Miss?
    ensures forall m :: m != result.invoiceNumber ==>
      C.GetDetail(r, m) == C.GetDetail(c, m) && C.GetSummary(r, m) == C.GetSummary(c, m)
    ensures r.Keys == c.Keys + {C.DetailKey(result.invoiceNumber), C.SummaryKey(result.invoiceNumber)} - {C.AllSummariesKey}
    ensures forall k :: k in r && k != C.DetailKey(result.invoiceNumber) && k != C.SummaryKey(result.invoiceNumber) ==> r[k] == c[k]
  {
    var n := result.invoiceNumber;
    var c1 := C.SetDetail(c, n, MapToDetailDto(result));
    var c2 := C.SetSummary(c1, n, MapToSummaryDto(result));
    var c3 := C.InvalidateAllSummaries(c2);
    C.KeyFamiliesDisjoint(n, n);
    assert C.GetDetail(c3, n) == C.Hit(MapToDetailDto(result)) by {
      C.KeyFamiliesDisjoint(n, n);
    }
    assert C.GetSummary(c3, n) == C.Hit(MapToSummaryDto(result)) by {
      C.KeyFamiliesDisjoint(n, n);
    }
    assert forall m :: m != n ==> C.GetDetail(c3, m) == C.GetDetail(c, m) && C.GetSummary(c3, m) == C.GetSummary(c, m) by {
      forall m | m != n
        ensures C.GetDetail(c3, m) == C.GetDetail(c, m) && C.GetSummary(c3, m) == C.GetSummary(c, m)
      {
        C.SetTouchesOneKey(c, n, m, MapToSummaryDto(result), MapToDetailDto(result));
        C.SetTouchesOneKey(c1, n, m, MapToSummaryDto(result), MapToDetailDto(result));
        C.InvalidateKeepsEntries(c2, m);
      }
    }
    c3
  }

  /**
   * `CreateAsync`: restores the soft-deleted row with the invoice's number
   * when the store has one, inserts the invoice otherwise; then caches the
   * result's detail and summary under its number and drops the list. The
   * restore saves the new data's number, vendor and total into the row, so
   * the same column checks as for an insert reject a value that does not fit.
   * The result is the invoice as passed in, even where the table clipped its
   * number or vendor.
   */
  function Create(b: Backend, inv: Invoice, g: RestoreGateway): (r: Reply<Invoice>)
    ensures g.findDeleted(b.store, inv.invoiceNumber).None? ==>
      && (r.Threw? <==> !S.Fits(inv) || S.HasNumber(b.store, S.Stored(inv).invoiceNumber))
      && (r.Completed? ==> r.value == inv && r.after.store == b.store + [S.Stored(inv)])
    ensures g.findDeleted(b.store, inv.invoiceNumber).Some? ==>
      var restored := g.restore(b.store, g.findDeleted(b.store, inv.invoiceNumber).value, inv);
      && (r.Threw? <==> !S.Fits(inv))
      && (r.Completed? ==> r.value == restored.1 && r.after.store == restored.0)
    ensures r.Completed? ==>
      && C.GetDetail(r.after.cache, r.value.invoiceNumber) == C.Hit(MapToDetailDto(r.value))
      && C.GetSummary(r.after.cache, r.value.invoiceNumber) == C.Hit(MapToSummaryDto(r.value))
      && C.GetAllSummaries(r.after.cache).Miss?
    ensures r.Completed? ==> r.after.cache == CacheCreated(b.cache, r.value)
    ensures r.Completed? ==> forall k :: k in b.cache && k != C.AllSummariesKey ==>
      k in r.after.cache && (k != C.DetailKey(r.value.invoiceNumber) && k != C.SummaryKey(r.value.invoiceNumber) ==>
        r.after.cache[k] == b.cache[k])
  {
    match g.findDeleted(b.store, inv.invoiceNumber)
    case Some(deleted) =>
      if !S.Fits(inv) then Threw
      else
        var (store, result) := g.restore(b.store, deleted, inv);
        Completed(result, Backend(store, CacheCreated(b.cache, result)))
    case None =>
      match S.Create(b.store, inv)
      case ColumnOverflow => Threw
      case UniqueViolation => Threw
      case Inserted(store, _) => Completed(inv, Backend(store, CacheCreated(b.cache, inv)))
  }

  /**
   * `DeleteAsync`: returns the store's answer, and evicts the invoice from
   * the cache exactly when the store confirms the delete.
   */
  function Delete(b: Backend, n: string, now: DateTime): (r: Reply<bool>)
    ensures r.Completed?
    ensures r.value <==> S.GetByInvoiceNumber(b.store, n).Some?
    ensures r.after.store == S.Delete(b.store, n, now).store
    ensures !r.value ==> r.after == b
    ensures r.value ==> forall k :: k in r.after.cache <==>
      k in b.cache && k != C.SummaryKey(n) && k != C.DetailKey(n) && k != C.AllSummariesKey
    ensures r.value ==> forall k :: k in r.after.cache ==> r.after.cache[k] == b.cache[k]
  {
    var d := S.Delete(b.store, n, now);
    if d.deleted then Completed(true, Backend(d.store, C.Delete(b.cache, n)))
    else Completed(false, Backend(d.store, b.cache))
  }

  // ---------------------------------------------------------------------
  // Coherence: every cached entry equals the projection of the store.
  // ---------------------------------------------------------------------

  /** A cached detail for `n`, if any, is the detail of the active row with number `n`. */
  ghost predicate DetailCoherent(b: Backend, n: string) {
    var l := C.GetDetail(b.cache, n);
    l.Miss? || (l.Hit? && Some(l.value) == DetailFromStore(b.store, n))
  }

  /** A cached summary for `n`, if any, is the summary of the active row with number `n`. */
  ghost predicate SummaryCoherent(b: Backend, n: string) {
    var l := C.GetSummary(b.cache, n);
    l.Miss? || (l.Hit? && S.GetByInvoiceNumber(b.store, n).Some?
      && l.value == MapToSummaryDto(S.GetByInvoiceNumber(b.store, n).value))
  }

  /** A cached list, if any, is the summaries of all active rows in table order. */
  ghost predicate ListCoherent(b: Backend) {
    var l := C.GetAllSummaries(b.cache);
    l.Miss? || (l.Hit? && l.value == MapSummaries(S.GetAll(b.store)))
  }

  ghost predicate Coherent(b: Backend) {
    && (forall n :: DetailCoherent(b, n))
    && (forall n :: SummaryCoherent(b, n))
    && ListCoherent(b)
  }

  /**
   * Over a coherent cache no read meets a document of the wrong kind, so
   * neither read operation of the service ever fails on decoding.
   */
  lemma CoherentReadsDecode(b: Backend, n: string)
    requires Coherent(b)
    ensures !C.GetDetail(b.cache, n).Undecodable? && !C.GetSummary(b.cache, n).Undecodable?
    ensures !C.GetAllSummaries(b.cache).Undecodable?
    ensures GetByInvoiceNumber(b, n).Completed? && GetAll(b).Completed?
  {
    assert DetailCoherent(b, n) && SummaryCoherent(b, n);
  }

  /** An empty cache is coherent with any store. */
  lemma EmptyCacheIsCoherent(s: S.Store)
    ensures Coherent(Backend(s, map[]))
  {
  }

  /**
   * On a coherent backend, the cached read returns what the uncached read
   * would, never throws, and leaves the backend coherent.
   */
  lemma GetByInvoiceNumberPreservesCoherence(b: Backend, n: string)
    requires Coherent(b)
    ensures var r := GetByInvoiceNumber(b, n);
      && r.Completed?
      && r.value == DetailFromStore(b.store, n)
      && Coherent(r.after)
  {
    assert DetailCoherent(b, n);
    var r := GetByInvoiceNumber(b, n);
    if C.GetDetail(b.cache, n).Miss? && S.GetByInvoiceNumber(b.store, n).Some? {
      var inv := S.GetByInvoiceNumber(b.store, n).value;
      var c1 := C.SetDetail(b.cache, n, MapToDetailDto(inv));
      assert r.after.cache == C.SetSummary(c1, n, MapToSummaryDto(inv));
      forall m | m != n
        ensures C.GetDetail(r.after.cache, m) == C.GetDetail(b.cache, m)
        ensures C.GetSummary(r.after.cache, m) == C.GetSummary(b.cache, m)
      {
        C.SetTouchesOneKey(b.cache, n, m, MapToSummaryDto(inv), MapToDetailDto(inv));
        C.SetTouchesOneKey(c1, n, m, MapToSummaryDto(inv), MapToDetailDto(inv));
      }
      C.SetTouchesOneKey(b.cache, n, n, MapToSummaryDto(inv), MapToDetailDto(inv));
      C.SetTouchesOneKey(c1, n, n, MapToSummaryDto(inv), MapToDetailDto(inv));
      assert forall m :: DetailCoherent(b, m) ==> DetailCoherent(r.after, m);
      assert forall m :: SummaryCoherent(b, m) ==> SummaryCoherent(r.after, m);
    }
  }

  /**
   * On a coherent backend, the cached list is the summaries of all active
   * rows, the call never throws, and the backend stays coherent.
   */
  lemma GetAllPreservesCoherence(b: Backend)
    requires Coherent(b)
    ensures var r := GetAll(b);
      && r.Completed?
      && r.value == MapSummaries(S.GetAll(b.store))
      && Coherent(r.after)
  {
    var r := GetAll(b);
    if C.GetAllSummaries(b.cache).Miss? {
      forall m
        ensures C.GetDetail(r.after.cache, m) == C.GetDetail(b.cache, m)
        ensures C.GetSummary(r.after.cache, m) == C.GetSummary(b.cache, m)
      {
        C.SetListKeepsEntries(b.cache, r.value, m);
      }
      assert forall m :: DetailCoherent(b, m) ==> DetailCoherent(r.after, m);
      assert forall m :: SummaryCoherent(b, m) ==> SummaryCoherent(r.after, m);
    }
  }

  /**
   * Creating an active invoice on a coherent backend with unique numbers
   * keeps both properties, provided the store's restore path behaves as
   * `Lawful` describes and the table keeps the invoice as given.
   */
  lemma CreatePreservesCoherence(b: Backend, inv: Invoice, g: RestoreGateway)
    requires Coherent(b) && S.Unique(b.store) && Lawful(g)
    requires inv.IsActive() && S.Stored(inv) == inv
    ensures var r := Create(b, inv, g);
      r.Completed? ==> Coherent(r.after) && S.Unique(r.after.store)
  {
    var n := inv.invoiceNumber;
    var r := Create(b, inv, g);
    if r.Completed? {
      var found := g.findDeleted(b.store, n);
      assert FindsDeleted(b.store, n, found);
      if found.Some? {
        assert Restores(b.store, found.value, inv, g.restore(b.store, found.value, inv));
      } else {
        S.CreateKeepsUnique(b.store, inv);
        forall m
          ensures S.GetByInvoiceNumber(r.after.store, m) ==
            (if m == n then Some(inv) else S.GetByInvoiceNumber(b.store, m))
        {
          S.CreateThenLookup(b.store, inv, m);
        }
      }
      assert r.value.invoiceNumber == n;
      assert S.GetByInvoiceNumber(r.after.store, n) == Some(r.value);
      assert forall m :: m != n ==> S.GetByInvoiceNumber(r.after.store, m) == S.GetByInvoiceNumber(b.store, m);
      assert forall m :: DetailCoherent(b, m) ==> DetailCoherent(r.after, m);
      assert forall m :: SummaryCoherent(b, m) ==> SummaryCoherent(r.after, m);
    }
  }

  /** Deleting keeps the backend coherent and the numbers unique. */
  lemma DeletePreservesCoherence(b: Backend, n: string, now: DateTime)
    requires Coherent(b) && S.Unique(b.store)
    ensures var r := Delete(b, n, now);
      Coherent(r.after) && S.Unique(r.after.store)
  {
    var r := Delete(b, n, now);
    S.DeleteKeepsUnique(b.store, n, now);
    if r.value {
      forall m | m != n
        ensures S.GetByInvoiceNumber(r.after.store, m) == S.GetByInvoiceNumber(b.store, m)
        ensures C.GetDetail(r.after.cache, m) == C.GetDetail(b.cache, m)
        ensures C.GetSummary(r.after.cache, m) == C.GetSummary(b.cache, m)
      {
        S.DeleteKeepsOtherLookups(b.store, n, now, m);
        C.DeleteEvicts(b.cache, n, m);
      }
      C.DeleteEvicts(b.cache, n, n);
      assert forall m :: DetailCoherent(b, m) ==> DetailCoherent(r.after, m);
      assert forall m :: SummaryCoherent(b, m) ==> SummaryCoherent(r.after, m);
    }
  }

  /**
   * A successful delete is visible through the cache at once: the detail
   * read finds nothing and the list no longer carries the number, warm
   * cache or not.
   */
  lemma DeleteIsVisible(b: Backend, n: string, now: DateTime)
    requires Coherent(b) && S.Unique(b.store)
    ensures var a := Delete(b, n, now).after;
      && GetByInvoiceNumber(a, n) == Completed(None, a)
      && forall s :: s in GetAll(a).value ==> s.invoiceNumber != n
  {
    var a := Delete(b, n, now).after;
    DeletePreservesCoherence(b, n, now);
    S.DeleteHidesRow(b.store, n, now, now);
    GetByInvoiceNumberPreservesCoherence(a, n);
    GetAllPreservesCoherence(a);
    var rows := S.GetAll(a.store);
    forall s | s in GetAll(a).value
      ensures s.invoiceNumber != n
    {
      var i :| 0 <= i < |rows| && MapSummaries(rows)[i] == s;
      assert rows[i] in rows;
    }
  }
}
