/**
 * The invoice cache over a distributed string store. Three key families
 * share one key space: a summary key and a detail key per invoice number,
 * and one key for the list of all summaries. Every write stores a JSON
 * document with an absolute expiry of one day; a read treats a missing
 * or empty string as a miss.
 *
 * JSON is represented by a tagged document, so serializing a DTO and
 * deserializing it again yields the same DTO by construction; a document
 * of another kind than the one a read expects is `Undecodable`, which is
 * where the deserializer would throw.
 */
module InvoiceCache {
  import opened Common
  import opened InvoiceModels

  const SummaryKeyPrefix: string := "invoice:summary:"
  const DetailKeyPrefix: string := "invoice:detail:"
  const AllSummariesKey: string := "invoice:all_summaries"

  /** `TimeSpan.FromDays(1)`, in seconds: the absolute expiry of every entry. */
  const CacheTtlSeconds: nat := 24 * 60 * 60

  /** The string stored under a key. */
  datatype Payload =
    | EmptyString
    | SummaryJson(summary: InvoiceSummaryDto)
    | DetailJson(detail: InvoiceDetailDto)
    | ListJson(summaries: seq<InvoiceSummaryDto>)

  /** A stored string together with the expiry it was written with. */
  datatype Entry = Entry(payload: Payload, ttlSeconds: nat)

  type Cache = map<string, Entry>

  /** The result of a read: absent, a decoded value, or a document the deserializer rejects. */
  datatype Lookup<T> = Miss | Hit(value: T) | Undecodable

  function SummaryKey(n: string): string {
    SummaryKeyPrefix + n
  }

  function DetailKey(n: string): string {
    DetailKeyPrefix + n
  }

  /** The three key families never collide: they differ at the ninth character. */
  lemma KeyFamiliesDisjoint(n: string, m: string)
    ensures SummaryKey(n) != DetailKey(m)
    ensures SummaryKey(n) != AllSummariesKey
    ensures DetailKey(n) != AllSummariesKey
  {
    assert SummaryKey(n)[8] == 's';
    assert DetailKey(m)[8] == 'd';
    assert AllSummariesKey[8] == 'a';
  }

  /** Within a family, the key determines the invoice number. */
  lemma KeysInjective(n: string, m: string)
    ensures SummaryKey(n) == SummaryKey(m) ==> n == m
    ensures DetailKey(n) == DetailKey(m) ==> n == m
  {
    if SummaryKey(n) == SummaryKey(m) {
      assert n == SummaryKey(n)[|SummaryKeyPrefix|..];
      assert m == SummaryKey(m)[|SummaryKeyPrefix|..];
    }
    if DetailKey(n) == DetailKey(m) {
      assert n == DetailKey(n)[|DetailKeyPrefix|..];
      assert m == DetailKey(m)[|DetailKeyPrefix|..];
    }
  }

  /** The stored string under `key`, or `None` when the key is absent. */
  function Read(c: Cache, key: string): (r: Option<Payload>)
    ensures r.Some? <==> key in c
  {
    if key in c then Some(c[key].payload) else None
  }

  /** The write every `Set*` performs: the document under `key`, with the one-day expiry. */
  function Write(c: Cache, key: string, p: Payload): (r: Cache)
    ensures r.Keys == c.Keys + {key}
    ensures r[key] == Entry(p, CacheTtlSeconds)
    ensures forall k :: k in c && k != key ==> r[k] == c[k]
  {
    c[key := Entry(p, CacheTtlSeconds)]
  }

  function GetSummary(c: Cache, n: string): (r: Lookup<InvoiceSummaryDto>)
    ensures r.Miss? <==> Read(c, SummaryKey(n)) in {None, Some(EmptyString)}
    ensures r.Hit? <==> exists s :: Read(c, SummaryKey(n)) == Some(SummaryJson(s))
    ensures r.Hit? ==> Read(c, SummaryKey(n)) == Some(SummaryJson(r.value))
  {
    match Read(c, SummaryKey(n))
    case None => Miss
    case Some(EmptyString) => Miss
    case Some(SummaryJson(s)) => Hit(s)
    case Some(_) => Undecodable
  }

  function GetDetail(c: Cache, n: string): (r: Lookup<InvoiceDetailDto>)
    ensures r.Miss? <==> Read(c, DetailKey(n)) in {None, Some(EmptyString)}
    ensures r.Hit? <==> exists d :: Read(c, DetailKey(n)) == Some(DetailJson(d))
    ensures r.Hit? ==> Read(c, DetailKey(n)) == Some(DetailJson(r.value))
  {
    match Read(c, DetailKey(n))
    case None => Miss
    case Some(EmptyString) => Miss
    case Some(DetailJson(d)) => Hit(d)
    case Some(_) => Undecodable
  }

  function GetAllSummaries(c: Cache): (r: Lookup<seq<InvoiceSummaryDto>>)
    ensures r.Miss? <==> Read(c, AllSummariesKey) in {None, Some(EmptyString)}
    ensures r.Hit? <==> exists l :: Read(c, AllSummariesKey) == Some(ListJson(l))
    ensures r.Hit? ==> Read(c, AllSummariesKey) == Some(ListJson(r.value))
  {
    match Read(c, AllSummariesKey)
    case None => Miss
    case Some(EmptyString) => Miss
    case Some(ListJson(l)) => Hit(l)
    case Some(_) => Undecodable
  }

  function SetSummary(c: Cache, n: string, s: InvoiceSummaryDto): (r: Cache)
    ensures GetSummary(r, n) == Hit(s)
    ensures r.Keys == c.Keys + {SummaryKey(n)}
    ensures r[SummaryKey(n)].ttlSeconds == CacheTtlSeconds
    ensures forall k :: k in c && k != SummaryKey(n) ==> r[k] == c[k]
  {
    Write(c, SummaryKey(n), SummaryJson(s))
  }

  function SetDetail(c: Cache, n: string, d: InvoiceDetailDto): (r: Cache)
    ensures GetDetail(r, n) == Hit(d)
    ensures r.Keys == c.Keys + {DetailKey(n)}
    ensures r[DetailKey(n)].ttlSeconds == CacheTtlSeconds
    ensures forall k :: k in c && k != DetailKey(n) ==> r[k] == c[k]
  {
    Write(c, DetailKey(n), DetailJson(d))
  }

  function SetAllSummaries(c: Cache, l: seq<InvoiceSummaryDto>): (r: Cache)
    ensures GetAllSummaries(r) == Hit(l)
    ensures r.Keys == c.Keys + {AllSummariesKey}
    ensures r[AllSummariesKey].ttlSeconds == CacheTtlSeconds
    ensures forall k :: k in c && k != AllSummariesKey ==> r[k] == c[k]
  {
    Write(c, AllSummariesKey, ListJson(l))
  }

  /** `DeleteAsync`: drops the summary and detail of `n` and the list; nothing else changes. */
  function Delete(c: Cache, n: string): (r: Cache)
    ensures forall k :: k in r <==> k in c && k != SummaryKey(n) && k != DetailKey(n) && k != AllSummariesKey
    ensures forall k :: k in r ==> r[k] == c[k]
  {
    c - {SummaryKey(n), DetailKey(n), AllSummariesKey}
  }

  /** `InvalidateAllSummariesAsync`: drops the list and nothing else. */
  function InvalidateAllSummaries(c: Cache): (r: Cache)
    ensures forall k :: k in r <==> k in c && k != AllSummariesKey
    ensures forall k :: k in r ==> r[k] == c[k]
  {
    c - {AllSummariesKey}
  }

  /** Each set followed by the matching get returns the stored value. */
  lemma SetThenGet(c: Cache, n: string, s: InvoiceSummaryDto, d: InvoiceDetailDto, l: seq<InvoiceSummaryDto>)
    ensures GetSummary(SetSummary(c, n, s), n) == Hit(s)
    ensures GetDetail(SetDetail(c, n, d), n) == Hit(d)
    ensures GetAllSummaries(SetAllSummaries(c, l)) == Hit(l)
  {
  }

  /** A cached empty list is a hit, distinguishable from an absent list. */
  lemma EmptyListIsHit(c: Cache)
    ensures GetAllSummaries(SetAllSummaries(c, [])).Hit?
    ensures GetAllSummaries(map[]).Miss?
  {
  }

  /** A set for one invoice leaves every read of every other key as it was. */
  lemma SetTouchesOneKey(c: Cache, n: string, m: string, s: InvoiceSummaryDto, d: InvoiceDetailDto)
    ensures GetDetail(SetSummary(c, n, s), m) == GetDetail(c, m)
    ensures GetAllSummaries(SetSummary(c, n, s)) == GetAllSummaries(c)
    ensures GetSummary(SetDetail(c, n, d), m) == GetSummary(c, m)
    ensures GetAllSummaries(SetDetail(c, n, d)) == GetAllSummaries(c)
    ensures m != n ==> GetSummary(SetSummary(c, n, s), m) == GetSummary(c, m)
    ensures m != n ==> GetDetail(SetDetail(c, n, d), m) == GetDetail(c, m)
  {
    KeyFamiliesDisjoint(n, m);
    KeyFamiliesDisjoint(m, n);
    KeysInjective(n, m);
  }

  /** Storing the list leaves every per-invoice read as it was. */
  lemma SetListKeepsEntries(c: Cache, l: seq<InvoiceSummaryDto>, m: string)
    ensures GetSummary(SetAllSummaries(c, l), m) == GetSummary(c, m)
    ensures GetDetail(SetAllSummaries(c, l), m) == GetDetail(c, m)
  {
    KeyFamiliesDisjoint(m, m);
  }

  /** After `Delete(n)` all three reads for `n` miss, and other invoices' entries survive. */
  lemma DeleteEvicts(c: Cache, n: string, m: string)
    ensures GetSummary(Delete(c, n), n).Miss?
    ensures GetDetail(Delete(c, n), n).Miss?
    ensures GetAllSummaries(Delete(c, n)).Miss?
    ensures m != n ==> GetSummary(Delete(c, n), m) == GetSummary(c, m)
    ensures m != n ==> GetDetail(Delete(c, n), m) == GetDetail(c, m)
  {
    KeyFamiliesDisjoint(n, m);
    KeyFamiliesDisjoint(m, n);
    KeysInjective(n, m);
  }

  /** Invalidating the list keeps every per-invoice entry. */
  lemma InvalidateKeepsEntries(c: Cache, n: string)
    ensures GetAllSummaries(InvalidateAllSummaries(c)).Miss?
    ensures GetSummary(InvalidateAllSummaries(c), n) == GetSummary(c, n)
    ensures GetDetail(InvalidateAllSummaries(c), n) == GetDetail(c, n)
  {
    KeyFamiliesDisjoint(n, n);
  }
}
