/**
 * The JSON data endpoint of the sales map (SalesMapDataView.get): the geocode
 * records of the request's event, reduced to `[latitude, longitude]` pairs of
 * the records whose two coordinates are both known.
 *
 * Coordinates are of an opaque type `C`; the storage read is a parameter whose
 * Failure case stands for any exception raised while reading or filtering.
 */
module Views {
  import opened Wrappers
  import Seqs

  /** Identifies an event; orders, and so geocode records, belong to one. */
  type EventId = nat

  /** One stored geocode record: the event of its order and its coordinates, each possibly null. */
  datatype GeocodeEntry<C> = GeocodeEntry(event: EventId, latitude: Option<C>, longitude: Option<C>)

  /** The JSON body: either the `coordinates` list or an `error` message. */
  datatype Body<C> = CoordinatesBody(coordinates: seq<(C, C)>) | ErrorBody(error: string)

  /** A JSON response: HTTP status and body. */
  datatype JsonResponse<C> = JsonResponse(status: nat, body: Body<C>)

  /** The message sent with status 500. */
  const RetrievalError := "Could not retrieve coordinate data."

  /** Whether a record belongs to `event`: the `order__event=event` filter. */
  function InEvent<C>(event: EventId): GeocodeEntry<C> -> bool {
    (e: GeocodeEntry<C>) => e.event == event
  }

  /** Whether both coordinates of a record are non-null. */
  predicate HasCoordinates<C>(e: GeocodeEntry<C>) {
    e.latitude.Some? && e.longitude.Some?
  }

  /** Whether a record ends up on the map of `event`. */
  function Mappable<C>(event: EventId): GeocodeEntry<C> -> bool {
    (e: GeocodeEntry<C>) => InEvent(event)(e) && HasCoordinates(e)
  }

  /** The records of `event`, in query order. */
  function Query<C>(table: seq<GeocodeEntry<C>>, event: EventId): seq<GeocodeEntry<C>> {
    Seqs.Filter(InEvent(event), table)
  }

  /**
   * The list comprehension: `[latitude, longitude]` of every entry whose two
   * coordinates are not null, in order.
   */
  function CoordinatePairs<C>(entries: seq<GeocodeEntry<C>>): seq<(C, C)>
    decreases |entries|
  {
    if entries == [] then []
    else
      var e := entries[|entries| - 1];
      CoordinatePairs(entries[..|entries| - 1])
      + (if HasCoordinates(e) then [(e.latitude.value, e.longitude.value)] else [])
  }

  /**
   * SalesMapDataView.get: on a successful read the body carries only the
   * coordinates of the event's located records, with status 200; on any
   * exception it carries only the error message, with status 500.
   */
  function SalesMapDataGet<C>(event: EventId, stored: Result<seq<GeocodeEntry<C>>, string>): (r: JsonResponse<C>)
    ensures r.status == 200 <==> stored.Success?
    ensures r.status == 200 <==> r.body.CoordinatesBody?
    ensures stored.Failure? ==> r.status == 500 && r.body == ErrorBody(RetrievalError)
  {
    match stored
    case Success(table) => JsonResponse(200, CoordinatesBody(CoordinatePairs(Query(table, event))))
    case Failure(_) => JsonResponse(500, ErrorBody(RetrievalError))
  }

  /**
   * The pairs sent for `event` are, one for one and in order, those of the
   * records at KeptIndices(Mappable(event), table): records of that event
   * with both coordinates set.
   */
  lemma {:induction false} PairsAtMappableIndices<C>(table: seq<GeocodeEntry<C>>, event: EventId)
    ensures var out, idx := CoordinatePairs(Query(table, event)), Seqs.KeptIndices(Mappable(event), table);
      && |out| == |idx|
      && forall k :: 0 <= k < |idx| ==>
        && idx[k] < |table|
        && table[idx[k]].event == event
        && table[idx[k]].latitude.Some? && table[idx[k]].longitude.Some?
        && out[k] == (table[idx[k]].latitude.value, table[idx[k]].longitude.value)
    decreases |table|
  {
    if table != [] {
      var n := |table|;
      var init, e := table[..n - 1], table[n - 1];
      PairsAtMappableIndices(init, event);
      var q0 := Query(init, event);
      var q := q0 + (if e.event == event then [e] else []);
      assert Query(table, event) == q;
      if e.event == event {
        assert q[..|q| - 1] == q0;
      } else {
        assert q == q0;
      }
      var out0, idx0 := CoordinatePairs(q0), Seqs.KeptIndices(Mappable(event), init);
      assert CoordinatePairs(q) == out0 + (if e.event == event && HasCoordinates(e) then [(e.latitude.value, e.longitude.value)] else []);
      assert Seqs.KeptIndices(Mappable(event), table) == idx0 + (if Mappable(event)(e) then [n - 1] else []);
      assert forall k :: 0 <= k < |idx0| ==> init[idx0[k]] == table[idx0[k]];
    }
  }

  /**
   * What the endpoint returns on a successful read: at most one pair per
   * record; each pair is the latitude and longitude of one record of the
   * event whose coordinates are both set; records keep their query order; and
   * no such record is left out.
   */
  lemma SalesMapDataExact<C>(table: seq<GeocodeEntry<C>>, event: EventId)
    ensures var r, idx := SalesMapDataGet(event, Success(table)), Seqs.KeptIndices(Mappable(event), table);
      && r.status == 200 && r.body.CoordinatesBody?
      && |r.body.coordinates| == |idx| <= |table|
      && (forall k :: 0 <= k < |idx| ==>
        && idx[k] < |table|
        && table[idx[k]].event == event
        && table[idx[k]].latitude.Some? && table[idx[k]].longitude.Some?
        && r.body.coordinates[k] == (table[idx[k]].latitude.value, table[idx[k]].longitude.value))
      && (forall k, l :: 0 <= k < l < |idx| ==> idx[k] < idx[l])
      && (forall i :: 0 <= i < |table| && table[i].event == event && HasCoordinates(table[i]) ==> i in idx)
  {
    PairsAtMappableIndices(table, event);
    Seqs.KeptIndicesComplete(Mappable(event), table);
    Seqs.KeptIndicesIncreasing(Mappable(event), table);
    var idx := Seqs.KeptIndices(Mappable(event), table);
    forall i | 0 <= i < |table| && table[i].event == event && HasCoordinates(table[i])
      ensures i in idx
    {
      assert Mappable(event)(table[i]);
    }
  }

  /** Every pair sent has both coordinates of a single record of the event: no half-null pair is ever produced. */
  lemma PairsComeFromLocatedRecords<C>(table: seq<GeocodeEntry<C>>, event: EventId, pair: (C, C))
    requires pair in SalesMapDataGet(event, Success(table)).body.coordinates
    ensures exists i :: (0 <= i < |table| && table[i].event == event &&
      table[i].latitude == Some(pair.0) && table[i].longitude == Some(pair.1))
  {
    SalesMapDataExact(table, event);
    var out := SalesMapDataGet(event, Success(table)).body.coordinates;
    var idx := Seqs.KeptIndices(Mappable(event), table);
    var k :| 0 <= k < |out| && out[k] == pair;
    var i := idx[k];
    assert table[i].latitude == Some(pair.0) && table[i].longitude == Some(pair.1);
  }
}
