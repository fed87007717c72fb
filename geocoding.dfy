/**
 * The order-geocoding helpers of the sales-map plugin: turning an order's
 * invoice address into one lookup string, mapping the outcome of a Nominatim
 * lookup to coordinates or nothing, and the chain that joins the two.
 *
 * Coordinates are of an opaque type `C`: nothing here does arithmetic on them.
 */
module Geocoding {
  import opened Wrappers
  import Seqs

  /** The country of an invoice address; present means its code is set. */
  datatype Country = Country(name: string)

  /** An invoice address; the empty string stands for a field left blank. */
  datatype InvoiceAddress = InvoiceAddress(
    street: string,
    city: string,
    zipcode: string,
    state: string,
    country: Option<Country>)

  /** The part of a pretix order the helpers read. */
  datatype Order = Order(code: string, invoiceAddress: Option<InvoiceAddress>)

  /**
   * What one call to the geocoding service comes to: a location, no match, or
   * one of the exceptions the call may raise (timeout, service error, anything
   * else).
   */
  datatype GeocodeOutcome<C> =
    | Found(latitude: C, longitude: C)
    | NotFound
    | TimedOut
    | ServiceError
    | OtherError

  /** The separator the address parts are joined with. */
  const Separator := ", "

  /** Python truthiness of a string, as `filter(None, ...)` and `if x:` use it. */
  predicate NonEmpty(s: string) {
    s != ""
  }

  /**
   * geocode_address: the service is the parameter `geocoder`; every outcome
   * other than a location, including every exception, becomes None.
   */
  function GeocodeAddress<C>(geocoder: string -> GeocodeOutcome<C>, address: string): (r: Option<(C, C)>)
    ensures r.Some? <==> geocoder(address).Found?
    ensures r.Some? ==> r.value.0 == geocoder(address).latitude && r.value.1 == geocoder(address).longitude
  {
    match geocoder(address)
    case Found(latitude, longitude) => Some((latitude, longitude))
    case NotFound => None
    case TimedOut => None
    case ServiceError => None
    case OtherError => None
  }

  // ---- Reference definition of the formatted address ----

  /** The country's name, or the empty string when no country is set. */
  function CountryName(a: InvoiceAddress): string {
    if a.country.Some? then a.country.value.name else ""
  }

  /** The address fields in the order they are put into the lookup string. */
  function FieldsInOrder(a: InvoiceAddress): seq<string> {
    [a.street, a.city, a.zipcode, a.state, CountryName(a)]
  }

  /** Whether any field is set; a set country counts even when its name is empty. */
  predicate AnyFieldGiven(a: InvoiceAddress) {
    a.street != "" || a.city != "" || a.zipcode != "" || a.state != "" || a.country.Some?
  }

  /** The non-empty fields, in the fixed order. */
  function PresentFields(a: InvoiceAddress): seq<string> {
    Seqs.Filter(NonEmpty, FieldsInOrder(a))
  }

  /**
   * What get_formatted_address_from_order is meant to return: nothing for a
   * missing address or one with no field set, otherwise the non-empty fields
   * in order, joined by ", ".
   */
  function FormatAddress(address: Option<InvoiceAddress>): Option<string> {
    match address
    case None => None
    case Some(a) =>
      if AnyFieldGiven(a) then Some(Seqs.Join(PresentFields(a), Separator)) else None
  }

  // ---- The formatter as the code runs it ----

  /**
   * The list the formatter collects: each field whose value is set, and the
   * country's name whenever a country is set, even an empty name.
   */
  function CollectedParts(a: InvoiceAddress): seq<string> {
    Seqs.OnlyIf(a.street != "", a.street) + Seqs.OnlyIf(a.city != "", a.city)
    + Seqs.OnlyIf(a.zipcode != "", a.zipcode) + Seqs.OnlyIf(a.state != "", a.state)
    + Seqs.OnlyIf(a.country.Some?, CountryName(a))
  }

  /** The condition under which the formatter takes each entry of FieldsInOrder. */
  function AppendGuards(a: InvoiceAddress): seq<bool> {
    [a.street != "", a.city != "", a.zipcode != "", a.state != "", a.country.Some?]
  }

  /** The collected parts are the entries of FieldsInOrder whose guard holds. */
  lemma CollectedPartsMasked(a: InvoiceAddress)
    ensures CollectedParts(a) == Seqs.Masked(FieldsInOrder(a), AppendGuards(a))
  {
    Seqs.MaskedFive(FieldsInOrder(a), AppendGuards(a));
  }

  /**
   * The collected parts, once empty strings are filtered out, are the present
   * fields: an entry the formatter skips is always an empty one.
   */
  lemma CollectedPartsFiltered(a: InvoiceAddress)
    ensures Seqs.Filter(NonEmpty, CollectedParts(a)) == PresentFields(a)
  {
    var fields, guards := FieldsInOrder(a), AppendGuards(a);
    CollectedPartsMasked(a);
    forall i | 0 <= i < |guards|
      ensures guards[i] || !NonEmpty(fields[i])
    {
      assert i == 0 || i == 1 || i == 2 || i == 3 || i == 4;
    }
    Seqs.FilterMasked(NonEmpty, fields, guards);
  }

  /** The formatter collects no part at all exactly when no field is set. */
  lemma CollectedPartsEmpty(a: InvoiceAddress)
    ensures CollectedParts(a) == [] <==> !AnyFieldGiven(a)
  {
    var fields, guards := FieldsInOrder(a), AppendGuards(a);
    CollectedPartsMasked(a);
    Seqs.MaskedEmpty(fields, guards);
    assert AnyFieldGiven(a) <==> guards[0] || guards[1] || guards[2] || guards[3] || guards[4];
  }

  /**
   * Lines 67-81 of get_formatted_address_from_order: append each set field to
   * `parts` in turn; a set country contributes its name even when empty.
   */
  method CollectParts(a: InvoiceAddress) returns (parts: seq<string>)
    ensures parts == CollectedParts(a)
  {
    parts := [];
    if a.street != "" {
      parts := parts + [a.street];
    }
    assert parts == Seqs.OnlyIf(a.street != "", a.street);
    if a.city != "" {
      parts := parts + [a.city];
    }
    assert parts == Seqs.OnlyIf(a.street != "", a.street) + Seqs.OnlyIf(a.city != "", a.city);
    if a.zipcode != "" {
      parts := parts + [a.zipcode];
    }
    assert parts == Seqs.OnlyIf(a.street != "", a.street) + Seqs.OnlyIf(a.city != "", a.city)
      + Seqs.OnlyIf(a.zipcode != "", a.zipcode);
    if a.state != "" {
      parts := parts + [a.state];
    }
    ghost var before := parts;
    assert before == Seqs.OnlyIf(a.street != "", a.street) + Seqs.OnlyIf(a.city != "", a.city)
      + Seqs.OnlyIf(a.zipcode != "", a.zipcode) + Seqs.OnlyIf(a.state != "", a.state);
    if a.country.Some? {
      parts := parts + [a.country.value.name];
    }
    assert parts == before + Seqs.OnlyIf(a.country.Some?, CountryName(a));
  }

  /**
   * get_formatted_address_from_order: nothing without an address or when no
   * field is set; otherwise the collected parts with empty strings dropped,
   * joined by ", ".
   */
  method FormattedAddressFromOrder(order: Order) returns (r: Option<string>)
    ensures r == FormatAddress(order.invoiceAddress)
    ensures r.None? <==> order.invoiceAddress.None? || !AnyFieldGiven(order.invoiceAddress.value)
  {
    if order.invoiceAddress.None? {
      return None;
    }
    var parts := CollectParts(order.invoiceAddress.value);
    CollectedPartsFiltered(order.invoiceAddress.value);
    CollectedPartsEmpty(order.invoiceAddress.value);
    if parts == [] {
      return None;
    }
    r := Some(Seqs.Join(Seqs.Filter(NonEmpty, parts), Separator));
  }

  // ---- Properties of the formatted address ----

  /**
   * The parts that make up the lookup string: at most one per field, each
   * non-empty, in the fixed order street, city, zipcode, state, country, and
   * no non-empty field is left out.
   */
  lemma PresentFieldsInFixedOrder(a: InvoiceAddress)
    ensures var fields, present, idx := FieldsInOrder(a), PresentFields(a), Seqs.KeptIndices(NonEmpty, FieldsInOrder(a));
      && |present| == |idx| <= 5
      && (forall k :: 0 <= k < |idx| ==> idx[k] < 5 && present[k] == fields[idx[k]] && present[k] != "")
      && (forall k, l :: 0 <= k < l < |idx| ==> idx[k] < idx[l])
      && (forall i :: 0 <= i < 5 && fields[i] != "" ==> i in idx)
  {
    Seqs.FilterByIndices(NonEmpty, FieldsInOrder(a));
    Seqs.KeptIndicesComplete(NonEmpty, FieldsInOrder(a));
    Seqs.KeptIndicesIncreasing(NonEmpty, FieldsInOrder(a));
  }

  /**
   * The lookup string is exactly the present fields joined by ", ": field `k`
   * sits at its offset, followed by ", " unless it is the last one.
   */
  lemma FormattedAddressLayout(a: InvoiceAddress, k: nat)
    requires AnyFieldGiven(a)
    requires k < |PresentFields(a)|
    ensures FormatAddress(Some(a)).Some?
    ensures var s, present := FormatAddress(Some(a)).value, PresentFields(a);
      var o := Seqs.Offset(present[..k], Separator);
      && |s| + 2 == Seqs.Offset(present, Separator)
      && o + |present[k]| <= |s| && s[o..o + |present[k]|] == present[k]
      && (k + 1 < |present| ==> o + |present[k]| + 2 <= |s| && s[o + |present[k]|..o + |present[k]| + 2] == ", ")
  {
    var present := PresentFields(a);
    Seqs.JoinLength(present, Separator);
    Seqs.JoinPartAt(present, Separator, k);
    if k + 1 < |present| {
      Seqs.JoinSeparatorAfter(present, Separator, k);
    }
  }

  /**
   * The formatter yields the empty string exactly when the address has a
   * country with an empty name and no other field: the country makes `parts`
   * non-empty, and the filter then removes its empty name.
   */
  lemma EmptyResultOnlyForNamelessCountry(address: Option<InvoiceAddress>)
    ensures FormatAddress(address) == Some("") <==>
      && address.Some?
      && address.value.street == "" && address.value.city == ""
      && address.value.zipcode == "" && address.value.state == ""
      && address.value.country == Some(Country(""))
  {
    if address.Some? {
      var a := address.value;
      NoPresentFieldsWhenAllEmpty(a);
      var present := PresentFields(a);
      if present != [] {
        Seqs.FilterByIndices(NonEmpty, FieldsInOrder(a));
        Seqs.JoinPartAt(present, Separator, 0);
      }
    }
  }

  /** No field survives the filter exactly when every field is empty. */
  lemma NoPresentFieldsWhenAllEmpty(a: InvoiceAddress)
    ensures PresentFields(a) == [] <==>
      a.street == "" && a.city == "" && a.zipcode == "" && a.state == "" && CountryName(a) == ""
  {
    var fields := FieldsInOrder(a);
    Seqs.FilterByIndices(NonEmpty, fields);
    Seqs.KeptIndicesComplete(NonEmpty, fields);
    if PresentFields(a) == [] {
      assert !NonEmpty(fields[0]) && !NonEmpty(fields[1]) && !NonEmpty(fields[2]);
      assert !NonEmpty(fields[3]) && !NonEmpty(fields[4]);
    } else {
      assert fields[Seqs.KeptIndices(NonEmpty, fields)[0]] != "";
    }
  }

  // ---- The whole chain ----

  /** Python truthiness of the formatted address: neither None nor "". */
  predicate IsLookupAddress(formatted: Option<string>) {
    formatted.Some? && formatted.value != ""
  }

  /**
   * process_order_for_geocoding: formats the address, and only when that gives
   * a non-empty string asks the geocoder, returning its coordinates or None.
   */
  function ProcessOrderForGeocoding<C>(order: Order, geocoder: string -> GeocodeOutcome<C>): (r: Option<(C, C)>)
    ensures !IsLookupAddress(FormatAddress(order.invoiceAddress)) ==> r.None?
    ensures var address := FormatAddress(order.invoiceAddress);
      IsLookupAddress(address) ==>
        && (r.Some? <==> geocoder(address.value).Found?)
        && (r.Some? ==> r.value == (geocoder(address.value).latitude, geocoder(address.value).longitude))
  {
    var address := FormatAddress(order.invoiceAddress);
    if !IsLookupAddress(address) then
      None
    else
      var coordinates := GeocodeAddress(geocoder, address.value);
      if coordinates.Some? then coordinates else None
  }
}
