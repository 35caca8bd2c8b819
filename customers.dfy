/**
 * The customer book: the add-customer submit handler (script.js:291-339), `editCustomer`
 * (script.js:342-368), `deleteCustomer` (script.js:371-378), the search filter and the
 * choice of the search-stats message (script.js:70-109, 246-266), `clearSearch`
 * (script.js:269-287), and the photo buffer (script.js:705-778). The script's global
 * `customers`, `uploadedPhotos` and `currentSearchTerm` are the fields of one
 * `CustomerManager`; the clock, the form inputs, the confirmation dialog and the stored
 * data are parameters.
 */
module Customers {
  import opened Wrappers
  import opened Strings
  import opened Seqs
  import opened Photos

  /** A stored record; the demo record has no creation time. */
  datatype Customer = Customer(
    id: int,
    name: string,
    mobile: string,
    address: string,
    coordinates: string,
    mapUrl: string,
    photos: seq<Photo>,
    created: Option<string>)

  /** The raw values of the form's five inputs. */
  datatype CustomerForm = CustomerForm(name: string, mobile: string, address: string,
                                       coordinates: string, mapUrl: string)

  /** Why an add is refused, in the order the handler checks. */
  datatype AddError = MissingFields | InvalidMobile | DuplicateMobile

  /** The record the script seeds an empty store with. */
  const Demo: Customer := Customer(1, "Demo Customer", "1234567890", "Sample Address, City, State",
                                   "23.15371, 79.753135", "https://maps.google.com/?q=23.15371,79.753135",
                                   [], None)

  // ---------------------------------------------------------------------------
  // Adding

  /** `/^\d{10}$/`: exactly ten ASCII digits. */
  predicate ValidMobile(m: string) {
    |m| == 10 && AllDigits(m)
  }

  /** `customers.some(c => c.mobile === mobile)`. */
  predicate MobileTaken(cs: seq<Customer>, mobile: string) {
    exists k :: 0 <= k < |cs| && cs[k].mobile == mobile
  }

  /** The submit handler's validation of the trimmed inputs; `None` lets the add through. */
  function CheckNewCustomer(cs: seq<Customer>, form: CustomerForm): Option<AddError> {
    var name, mobile, address := Trim(form.name), Trim(form.mobile), Trim(form.address);
    if name == [] || mobile == [] || address == [] then Some(MissingFields)
    else if !ValidMobile(mobile) then Some(InvalidMobile)
    else if MobileTaken(cs, mobile) then Some(DuplicateMobile)
    else None
  }

  /**
   * An add goes through exactly when the three required inputs are non-empty after
   * trimming, the mobile is ten digits and no record has it; each refusal names the first
   * test that failed.
   */
  lemma CheckNewCustomerCases(cs: seq<Customer>, form: CustomerForm)
    ensures var r := CheckNewCustomer(cs, form);
      var mobile := Trim(form.mobile);
      && (r.None? <==>
            Trim(form.name) != [] && mobile != [] && Trim(form.address) != []
            && ValidMobile(mobile) && !MobileTaken(cs, mobile))
      && (r == Some(MissingFields) <==> Trim(form.name) == [] || mobile == [] || Trim(form.address) == [])
      && (r == Some(InvalidMobile) <==>
            Trim(form.name) != [] && mobile != [] && Trim(form.address) != [] && !ValidMobile(mobile))
      && (r == Some(DuplicateMobile) <==>
            Trim(form.name) != [] && Trim(form.address) != [] && ValidMobile(mobile) && MobileTaken(cs, mobile))
  {
  }

  /** The coordinates stored when none are given, and the map link for typed coordinates. */
  const NotProvided: string := "Not provided"
  const MapsQuery: string := "https://maps.google.com/?q="

  /**
   * The record the handler builds: trimmed inputs, `Not provided` for empty coordinates,
   * and for an empty map URL a Google Maps link on the coordinates as typed, except when
   * they were typed as `Not provided`.
   */
  function NewCustomer(form: CustomerForm, id: int, photos: seq<Photo>, created: string): Customer {
    var coordinates, mapUrl := Trim(form.coordinates), Trim(form.mapUrl);
    Customer(id, Trim(form.name), Trim(form.mobile), Trim(form.address),
             if coordinates != [] then coordinates else NotProvided,
             if mapUrl != [] then mapUrl
             else if coordinates != NotProvided then MapsQuery + coordinates
             else "",
             photos, Some(created))
  }

  /** The defaults of the new record: `Not provided` for missing coordinates, and the map link. */
  lemma NewCustomerDefaults(form: CustomerForm, id: int, photos: seq<Photo>, created: string)
    ensures var c := NewCustomer(form, id, photos, created);
      && c.id == id && c.photos == photos && c.created == Some(created)
      && c.name == Trim(form.name) && c.mobile == Trim(form.mobile) && c.address == Trim(form.address)
      && c.coordinates != []
      && (Trim(form.coordinates) == [] ==> c.coordinates == NotProvided)
      && (Trim(form.coordinates) != [] ==> c.coordinates == Trim(form.coordinates))
      && (Trim(form.mapUrl) != [] ==> c.mapUrl == Trim(form.mapUrl))
      && (Trim(form.mapUrl) == [] && Trim(form.coordinates) != NotProvided ==>
            c.mapUrl == MapsQuery + Trim(form.coordinates))
      && (c.mapUrl == [] <==> Trim(form.mapUrl) == [] && Trim(form.coordinates) == NotProvided)
  {
  }

  /** No two records share a mobile number. */
  predicate DistinctMobiles(cs: seq<Customer>) {
    forall i, j :: 0 <= i < j < |cs| ==> cs[i].mobile != cs[j].mobile
  }

  /** An accepted add keeps the mobiles distinct. */
  lemma AddKeepsDistinct(cs: seq<Customer>, form: CustomerForm, id: int, photos: seq<Photo>, created: string)
    requires CheckNewCustomer(cs, form).None?
    ensures DistinctMobiles(cs) ==> DistinctMobiles(cs + [NewCustomer(form, id, photos, created)])
  {
    if DistinctMobiles(cs) {
      AddToDistinct(cs, form, id, photos, created);
    }
  }

  lemma AddToDistinct(cs: seq<Customer>, form: CustomerForm, id: int, photos: seq<Photo>, created: string)
    requires DistinctMobiles(cs) && CheckNewCustomer(cs, form).None?
    ensures DistinctMobiles(cs + [NewCustomer(form, id, photos, created)])
  {
    CheckNewCustomerCases(cs, form);
    var c := NewCustomer(form, id, photos, created);
    assert c.mobile == Trim(form.mobile);
    var after := cs + [c];
    forall i, j | 0 <= i < j < |after|
      ensures after[i].mobile != after[j].mobile
    {
      if j == |cs| {
        assert after[i] == cs[i];
        assert !(0 <= i < |cs| && cs[i].mobile == Trim(form.mobile));
      }
    }
  }

  // ---------------------------------------------------------------------------
  // Finding and removing by id

  /** `customers.find(c => c.id === id)`: the first record with the id. */
  function FindById(cs: seq<Customer>, id: int): (r: Option<Customer>)
    ensures r.None? <==> forall k :: 0 <= k < |cs| ==> cs[k].id != id
    ensures r.Some? ==> exists k :: 0 <= k < |cs| && cs[k] == r.value && r.value.id == id &&
                                    forall j :: 0 <= j < k ==> cs[j].id != id
  {
    if cs == [] then None
    else if cs[0].id == id then Some(cs[0])
    else
      var r := FindById(cs[1..], id);
      assert forall k :: 1 <= k < |cs| ==> cs[k] == cs[1..][k - 1];
      if r.Some? then
        var k :| 0 <= k < |cs[1..]| && cs[1..][k] == r.value && r.value.id == id &&
                 forall j :: 0 <= j < k ==> cs[1..][j].id != id;
        assert cs[k + 1] == r.value;
        r
      else r
  }

  /** `customers.filter(c => c.id !== id)`: every record with the id goes, the rest stay. */
  function WithoutId(cs: seq<Customer>, id: int): (r: seq<Customer>)
    ensures forall c :: c in r <==> c in cs && c.id != id
    ensures (forall k :: 0 <= k < |cs| ==> cs[k].id != id) ==> r == cs
    ensures |r| < |cs| <==> exists k :: 0 <= k < |cs| && cs[k].id == id
  {
    FilterKeepsAll(cs, (c: Customer) => c.id != id);
    Filter(cs, (c: Customer) => c.id != id)
  }

  /** Removal decides each record on its own, so the records it keeps stay in order. */
  lemma WithoutIdAppend(a: seq<Customer>, b: seq<Customer>, id: int)
    ensures WithoutId(a + b, id) == WithoutId(a, id) + WithoutId(b, id)
  {
    FilterAppend(a, b, (c: Customer) => c.id != id);
  }

  /** Removing records keeps the mobiles distinct. */
  lemma {:induction false} FilterKeepsDistinct(cs: seq<Customer>, keep: Customer -> bool)
    requires DistinctMobiles(cs)
    ensures DistinctMobiles(Filter(cs, keep))
  {
    if cs != [] {
      var tail := cs[1..];
      assert DistinctMobiles(tail) by {
        assert forall k :: 0 <= k < |tail| ==> tail[k] == cs[k + 1];
      }
      FilterKeepsDistinct(tail, keep);
      var rest := Filter(tail, keep);
      if keep(cs[0]) {
        var r := [cs[0]] + rest;
        forall j | 0 < j < |r|
          ensures r[0].mobile != r[j].mobile
        {
          assert r[j] == rest[j - 1];
          assert rest[j - 1] in tail;
          var k :| 0 <= k < |tail| && tail[k] == rest[j - 1];
          assert tail[k] == cs[k + 1];
        }
        assert Filter(cs, keep) == r;
      }
    }
  }

  lemma RemovalKeepsDistinct(cs: seq<Customer>, id: int)
    requires DistinctMobiles(cs)
    ensures DistinctMobiles(WithoutId(cs, id))
  {
    FilterKeepsDistinct(cs, (c: Customer) => c.id != id);
  }

  // ---------------------------------------------------------------------------
  // Search

  /** `searchInput.value.trim().toLowerCase()`. */
  function SearchTerm(input: string): string {
    Lower(Trim(input))
  }

  /**
   * The filter predicate for a non-empty term: the lower-cased name, address or coordinates
   * contain the term, or the mobile as written does.
   */
  predicate SearchMatches(c: Customer, term: string) {
    || Contains(Lower(c.name), term)
    || Contains(c.mobile, term)
    || Contains(Lower(c.address), term)
    || (c.coordinates != [] && Contains(Lower(c.coordinates), term))
  }

  /** What the search shows: everyone for an empty term, otherwise the matches in list order. */
  function SearchResults(cs: seq<Customer>, term: string): (r: seq<Customer>)
    ensures term == [] ==> r == cs
    ensures |r| <= |cs|
    ensures term != [] ==> forall c :: c in r <==> c in cs && SearchMatches(c, term)
  {
    if term == [] then cs else Filter(cs, (c: Customer) => SearchMatches(c, term))
  }

  /** Each record is matched on its own, so the results keep the order of the list. */
  lemma SearchResultsAppend(a: seq<Customer>, b: seq<Customer>, term: string)
    ensures SearchResults(a + b, term) == SearchResults(a, term) + SearchResults(b, term)
  {
    if term != [] {
      FilterAppend(a, b, (c: Customer) => SearchMatches(c, term));
    }
  }

  /** The line under the search box. */
  datatype SearchStats =
    | NoStats                                        // empty term: nothing shown
    | NoResults(term: string)                       // `No results found for "term"`
    | ShowingAll(total: nat)                         // `Showing all total customers`
    | Found(count: nat, total: nat, term: string)   // `Found count of total customers for "term"`

  /** `updateSearchStats`: its branches in order. */
  function Stats(count: nat, total: nat, term: string): (s: SearchStats)
    ensures s.NoStats? <==> term == []
    ensures s.NoResults? <==> term != [] && count == 0
    ensures s.NoResults? ==> s == NoResults(term)
    ensures s.ShowingAll? <==> term != [] && count != 0 && count == total
    ensures s.ShowingAll? ==> s == ShowingAll(total)
    ensures s.Found? ==> s == Found(count, total, term) && count != 0 && count != total
  {
    if term == [] then NoStats
    else if count == 0 then NoResults(term)
    else if count == total then ShowingAll(total)
    else Found(count, total, term)
  }

  /**
   * For a search: no results exactly when nobody matches, all shown exactly when a
   * non-empty list matches entirely, and otherwise a count strictly between none and all.
   */
  lemma SearchStatsCases(cs: seq<Customer>, term: string)
    requires term != []
    ensures var r := SearchResults(cs, term);
      var s := Stats(|r|, |cs|, term);
      && (s.NoResults? <==> forall k :: 0 <= k < |cs| ==> !SearchMatches(cs[k], term))
      && (s.ShowingAll? <==> cs != [] && forall k :: 0 <= k < |cs| ==> SearchMatches(cs[k], term))
      && (s.Found? ==> 0 < s.count < s.total)
  {
    var keep := (c: Customer) => SearchMatches(c, term);
    FilterKeepsAll(cs, keep);
    var r := SearchResults(cs, term);
    if r == [] {
      assert forall k :: 0 <= k < |cs| ==> cs[k] in cs;
    } else {
      assert r[0] in cs && SearchMatches(r[0], term);
    }
  }

  // ---------------------------------------------------------------------------
  // The script's state

  class CustomerManager {
    var customers: seq<Customer>
    var uploadedPhotos: seq<Photo>
    var currentSearchTerm: string

    /** `loadCustomers`: the stored list when there is one, else the demo record. */
    constructor (stored: Option<seq<Customer>>)
      ensures customers == (if stored.Some? then stored.value else [Demo])
      ensures uploadedPhotos == [] && currentSearchTerm == []
    {
      customers := if stored.Some? then stored.value else [Demo];
      uploadedPhotos := [];
      currentSearchTerm := [];
    }

    /**
     * The submit handler: a refused add changes nothing; an accepted one appends the new
     * record, with a copy of the photo buffer, and empties the buffer.
     */
    method Submit(form: CustomerForm, id: int, created: string) returns (r: Option<AddError>)
      modifies this
      ensures r == CheckNewCustomer(old(customers), form)
      ensures r.Some? ==> customers == old(customers) && uploadedPhotos == old(uploadedPhotos)
      ensures r.None? ==> customers == old(customers) + [NewCustomer(form, id, old(uploadedPhotos), created)]
      ensures r.None? ==> uploadedPhotos == []
      ensures currentSearchTerm == old(currentSearchTerm)
      ensures DistinctMobiles(old(customers)) ==> DistinctMobiles(customers)
    {
      r := CheckNewCustomer(customers, form);
      if r.None? {
        AddKeepsDistinct(customers, form, id, uploadedPhotos, created);
        customers := customers + [NewCustomer(form, id, uploadedPhotos, created)];
        uploadedPhotos := [];
      }
    }

    /**
     * `editCustomer`: the first record with the id goes back into the form, its photos into
     * the buffer, and every record with the id leaves the list. An unknown id changes nothing.
     */
    method Edit(id: int) returns (form: Option<CustomerForm>)
      modifies this
      ensures form.None? <==> FindById(old(customers), id).None?
      ensures form.None? ==> customers == old(customers) && uploadedPhotos == old(uploadedPhotos)
      ensures form.Some? ==>
        var c := FindById(old(customers), id).value;
        && form.value == CustomerForm(c.name, c.mobile, c.address, c.coordinates, c.mapUrl)
        && uploadedPhotos == c.photos
        && customers == WithoutId(old(customers), id)
      ensures currentSearchTerm == old(currentSearchTerm)
      ensures DistinctMobiles(old(customers)) ==> DistinctMobiles(customers)
    {
      var found := FindById(customers, id);
      if found.None? {
        return None;
      }
      var c := found.value;
      uploadedPhotos := c.photos;
      if DistinctMobiles(customers) {
        RemovalKeepsDistinct(customers, id);
      }
      customers := WithoutId(customers, id);
      form := Some(CustomerForm(c.name, c.mobile, c.address, c.coordinates, c.mapUrl));
    }

    /** `deleteCustomer`: once confirmed, every record with the id leaves the list. */
    method Delete(id: int, confirmed: bool)
      modifies this
      ensures customers == if confirmed then WithoutId(old(customers), id) else old(customers)
      ensures uploadedPhotos == old(uploadedPhotos) && currentSearchTerm == old(currentSearchTerm)
      ensures DistinctMobiles(old(customers)) ==> DistinctMobiles(customers)
    {
      if confirmed {
        if DistinctMobiles(customers) {
          RemovalKeepsDistinct(customers, id);
        }
        customers := WithoutId(customers, id);
      }
    }

    /** `searchCustomers`: remembers the term, and gives the records shown and the stats line. */
    method Search(input: string) returns (shown: seq<Customer>, stats: SearchStats)
      modifies this
      ensures currentSearchTerm == SearchTerm(input)
      ensures shown == SearchResults(customers, currentSearchTerm)
      ensures stats == Stats(|shown|, |customers|, currentSearchTerm)
      ensures customers == old(customers) && uploadedPhotos == old(uploadedPhotos)
    {
      currentSearchTerm := SearchTerm(input);
      shown := SearchResults(customers, currentSearchTerm);
      stats := Stats(|shown|, |customers|, currentSearchTerm);
    }

    /** `clearSearch`: forgets the term; everyone is shown again. */
    method ClearSearch() returns (shown: seq<Customer>)
      modifies this
      ensures currentSearchTerm == [] && shown == customers
      ensures customers == old(customers) && uploadedPhotos == old(uploadedPhotos)
    {
      currentSearchTerm := [];
      shown := customers;
    }

    /**
     * `handlePhotoUpload`: a batch that would take the buffer over five photos is refused
     * whole; otherwise each file that passes the size and type tests is added, in order,
     * with the clock reading plus its index as id.
     */
    method HandlePhotoUpload(files: seq<PhotoFile>, now: int, stamp: string) returns (accepted: bool)
      modifies this
      ensures accepted <==> Fits(|old(uploadedPhotos)|, |files|)
      ensures accepted ==> uploadedPhotos == old(uploadedPhotos) + AcceptedUpTo(files, |files|, now, stamp)
      ensures accepted ==> |uploadedPhotos| <= MaxPhotos
      ensures !accepted ==> uploadedPhotos == old(uploadedPhotos)
      ensures customers == old(customers) && currentSearchTerm == old(currentSearchTerm)
    {
      if |uploadedPhotos| + |files| > MaxPhotos {
        return false;
      }
      for i := 0 to |files|
        invariant uploadedPhotos == old(uploadedPhotos) + AcceptedUpTo(files, i, now, stamp)
        invariant customers == old(customers) && currentSearchTerm == old(currentSearchTerm)
      {
        var file := files[i];
        if file.size > MaxSize {
          continue;
        }
        if !StartsWith(file.mimeType, "image/") {
          continue;
        }
        uploadedPhotos := uploadedPhotos + [Photo(now + i, file.name, file.dataUrl, stamp)];
      }
      return true;
    }

    /** `removePhoto`: the buffer without the photos of the id. */
    method RemovePhoto(id: int)
      modifies this
      ensures uploadedPhotos == WithoutPhoto(old(uploadedPhotos), id)
      ensures customers == old(customers) && currentSearchTerm == old(currentSearchTerm)
    {
      uploadedPhotos := WithoutPhoto(uploadedPhotos, id);
    }
  }
}
