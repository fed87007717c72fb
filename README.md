# pretix-map: geocoding helpers and map data endpoint, in Dafny

This project models the two pieces of self-contained logic in the pretix-map
plugin, a pretix plugin that shows an event's paid orders on a map:

- **The geocoding helpers** (`pretix_mapplugin/geocoding.py`), in module
  `Geocoding`:
  - `get_formatted_address_from_order` turns an order's invoice address
    into one lookup string: street, city, zipcode, state and country name,
    in that order, blanks skipped, joined by `", "`. It is modelled as the
    method `FormattedAddressFromOrder`, which is proved equal to the
    reference function `FormatAddress`. It builds the `parts` list by
    successive appends in `CollectParts`, whose result the lemmas
    `CollectedPartsFiltered` and `CollectedPartsEmpty` connect to that
    reference.
  - `geocode_address` maps the outcome of a Nominatim lookup to
    coordinates or nothing.
  - `process_order_for_geocoding` chains the two.
- **The sales-map data view** (`pretix_mapplugin/views.py`,
  `SalesMapDataView.get`), in module `Views`. It keeps the geocode records
  of the request's event, drops those with a null coordinate, and answers
  `{"coordinates": [[lat, lon], ...]}`. Any error while reading gives a 500
  answer carrying only an error message.

Module `Seqs` holds the sequence functions behind Python's `filter(None, ...)`
and `str.join`, with the lemmas that pin down what they produce. Module
`Wrappers` holds `Option` and `Result`.

Modelling choices:
- An absent address field is the empty string.
- A set country is `Some(Country(name))`. Its truthiness is the `Some`, not
  the name.
- Coordinates are an opaque type parameter `C`.
- The Nominatim service is a parameter `geocoder: string -> GeocodeOutcome<C>`.
  Its outcome is `Found(lat, lon)`, `NotFound`, `TimedOut`, `ServiceError` or
  `OtherError`, the last standing for any other exception.
- The view's storage read is a `Result`, whose `Failure` stands for any
  exception raised while querying.

The formatter can return `""`, not only `None`
(`pretix_mapplugin/geocoding.py:79-87`). This happens when a country with an
empty name is the only field set: `parts` is non-empty, so the `not parts`
test does not fire, and the filter then drops the empty name.
`EmptyResultOnlyForNamelessCountry` states exactly when it happens.

## Model

| member | source | states |
|---|---|---|
| Geocoding.GeocodeAddress | pretix_mapplugin/geocoding.py:34-50 | Total, so the lookup never raises. It yields coordinates exactly when the service found a location, and then the pair is that location's latitude and longitude. Not-found, timeout, service error and any other exception all yield None. |
| Geocoding.CollectParts | pretix_mapplugin/geocoding.py:67-81 | The appended list is exactly each set field in the order street, city, zipcode, state. It is followed by the country's name whenever a country is set, even an empty name. |
| Geocoding.CollectedPartsMasked | pretix_mapplugin/geocoding.py:67-81 | The collected list is the fixed field sequence masked by the five `if` guards. |
| Geocoding.CollectedPartsFiltered | pretix_mapplugin/geocoding.py:67-87 | Filtering empty strings out of the collected list gives exactly the non-empty fields in fixed order. Every entry the guards skip is empty. |
| Geocoding.CollectedPartsEmpty | pretix_mapplugin/geocoding.py:67-84 | The collected list is empty exactly when no field is set, a country counting as set. |
| Geocoding.FormattedAddressFromOrder | pretix_mapplugin/geocoding.py:54-88 | The result is the reference formatting: None without an address or with no field set, otherwise the non-empty fields joined by ", ". It is None exactly in those two cases. |
| Geocoding.PresentFieldsInFixedOrder | pretix_mapplugin/geocoding.py:70-87 | The joined parts are at most one per field. Each is non-empty and is the value of its field. They come in strictly increasing field order, street to country, and no non-empty field is left out. |
| Geocoding.FormattedAddressLayout | pretix_mapplugin/geocoding.py:87 | The lookup string is the present parts joined by ", " and nothing else. Part k sits at its offset, ", " follows every part but the last, and the length is the parts plus one separator per gap. |
| Geocoding.NoPresentFieldsWhenAllEmpty | pretix_mapplugin/geocoding.py:87 | The filter removes every part exactly when street, city, zipcode, state and country name are all empty. |
| Geocoding.EmptyResultOnlyForNamelessCountry | pretix_mapplugin/geocoding.py:79-87 | The formatter yields "" if and only if the address has a country with an empty name and no other field. |
| Geocoding.ProcessOrderForGeocoding | pretix_mapplugin/geocoding.py:93-111 | The result is None, whatever the geocoder would answer, when the formatted address is None or "". Otherwise the result is the geocoder's coordinates for that string when it found a location, and None when it did not. |
| Views.SalesMapDataGet | pretix_mapplugin/views.py:23-48 | Status 200 holds exactly when the read succeeded, and exactly when the body is the coordinates list. A failed read gives status 500 with only the error message. |
| Views.PairsAtMappableIndices | pretix_mapplugin/views.py:33-41 | The k-th emitted pair is `[latitude, longitude]` of the k-th record that belongs to the event and has both coordinates set. |
| Views.SalesMapDataExact | pretix_mapplugin/views.py:30-44 | On success the answer has status 200 and at most one pair per record. Each pair comes from an event record with both coordinates set. Record order is kept, and no such record is dropped. |
| Views.PairsComeFromLocatedRecords | pretix_mapplugin/views.py:37-41 | Every emitted pair is the latitude and longitude of one record of the event, both non-null. No half-null pair is produced. |
| Seqs.FilterByIndices | pretix_mapplugin/geocoding.py:87 | `filter` keeps one element per kept position, in order, each satisfying the predicate. |
| Seqs.KeptIndicesComplete | pretix_mapplugin/geocoding.py:87 | `filter` misses no element that satisfies the predicate. |
| Seqs.KeptIndicesIncreasing | pretix_mapplugin/geocoding.py:87 | The kept positions are in range and strictly increasing, so the order is kept and nothing is taken twice. |
| Seqs.FilterMasked | pretix_mapplugin/geocoding.py:70-87 | Skipping only elements the filter would drop anyway does not change the filter's result. |
| Seqs.MaskedEmpty | pretix_mapplugin/geocoding.py:83-84 | A masked list is empty exactly when no guard holds. |
| Seqs.JoinLength | pretix_mapplugin/geocoding.py:87 | `sep.join` of a non-empty list has the parts' lengths plus one separator per gap. |
| Seqs.JoinPartAt | pretix_mapplugin/geocoding.py:87 | In `sep.join`, part k appears unchanged at its offset. |
| Seqs.JoinSeparatorAfter | pretix_mapplugin/geocoding.py:87 | In `sep.join`, the separator follows every part but the last. |

## Left out

- The Nominatim client, the one-second `sleep`, the 10-second timeout and the user agent are foreign I/O. The service is the `geocoder` parameter.
- The logging calls in `geocode_address`, in `process_order_for_geocoding` and in the view are left out. They do not affect any result.
- `order.invoice_address` is modelled as an optional value. Django's raising of a "does not exist" error for an order without one is not modelled, because the ORM is not part of this model.
- The country's lazily translated name is modelled as a plain string.
- `Views.SalesMapDataGet` does not model the ORM query, `select_related` or the `OrderGeocodeData` model. The stored records are a sequence of (event, latitude, longitude) in query order, and every database exception is the `Failure` case.
- `Views.SalesMapDataGet` does not model the JSON encoding of the response. The body is a datatype.
- Float semantics of the coordinates are left out. Coordinates are opaque and nothing computes with them.
- The `order_paid` receiver in `signals.py`, which enqueues a Celery job, is left out as queue plumbing.
- The Content-Security-Policy rewriting in `signals.py` is left out. It relies on pretix-internal helpers that are not part of this model.
- The permission mixin, the `SalesMapView` template page and the `salesmap.js` Leaflet front end are left out as web and UI concerns.
- `setup.py`, `apps.py` and `urls.py` are left out as packaging, plugin metadata and routing.
