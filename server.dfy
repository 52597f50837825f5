/**
 * The reservation collection behind the camp-booking server: the record a
 * create request builds, the check it must pass, the filter a delete applies,
 * and the store that loads and saves the whole collection as one JSON file.
 *
 * The HTTP layer is reduced to the outcome of each handler (its status code
 * and, for a create, the id it reports); the clock, the file system and the
 * result of each write are parameters.
 */
module Server {
  import opened Wrappers

  // ---------------------------------------------------------------------------
  // Records
  // ---------------------------------------------------------------------------

  /**
   * One JSON object of the collection, and also the shape of a request body.
   * `None` is a key absent from the object. Every key other than the named
   * ones (a string-valued childAge among them) is kept, with its value, in `extra`.
   */
  datatype Reservation = Reservation(
    id: Option<string>,
    timestamp: Option<string>,
    childFirstName: Option<string>,
    childLastName: Option<string>,
    email: Option<string>,
    dates: Option<seq<string>>,
    parentName: Option<string>,
    phone: Option<string>,
    extra: map<string, string>)

  /** The keys that have a field of their own in `Reservation`. */
  const NamedKeys: set<string> :=
    {"id", "timestamp", "childFirstName", "childLastName", "email", "dates", "parentName", "phone"}

  /** A JSON object holds each key once: `extra` never repeats a named key. */
  predicate WellFormed(r: Reservation) {
    r.extra.Keys !! NamedKeys
  }

  /** A submitted value, when there is one, survives in the stored record. */
  predicate Keeps<T(==)>(stored: Option<T>, submitted: Option<T>) {
    submitted.Some? ==> stored == submitted
  }

  /** Every field of `body`, named or extra, appears unchanged in `r`. */
  predicate Carries(r: Reservation, body: Reservation) {
    && Keeps(r.id, body.id)
    && Keeps(r.timestamp, body.timestamp)
    && Keeps(r.childFirstName, body.childFirstName)
    && Keeps(r.childLastName, body.childLastName)
    && Keeps(r.email, body.email)
    && Keeps(r.dates, body.dates)
    && Keeps(r.parentName, body.parentName)
    && Keeps(r.phone, body.phone)
    && forall k :: k in body.extra ==> k in r.extra && r.extra[k] == body.extra[k]
  }

  /**
   * The object `{ id, timestamp, ...body }`: the generated id and timestamp
   * come first, so a submitted `id` or `timestamp` replaces them.
   */
  function Merge(generatedId: string, generatedTimestamp: string, body: Reservation): (r: Reservation)
    ensures Carries(r, body)
    ensures body.id.None? ==> r.id == Some(generatedId)
    ensures body.timestamp.None? ==> r.timestamp == Some(generatedTimestamp)
    ensures r.(id := body.id, timestamp := body.timestamp) == body
    ensures WellFormed(body) ==> WellFormed(r)
  {
    var id := if body.id.Some? then body.id else Some(generatedId);
    var timestamp := if body.timestamp.Some? then body.timestamp else Some(generatedTimestamp);
    body.(id := id, timestamp := timestamp)
  }

  /** JavaScript truthiness of an optional string: present and not "". */
  predicate Filled(f: Option<string>) {
    f.Some? && f.value != ""
  }

  /**
   * The create handler's required-field check, applied to the merged record.
   * An absent field fails it, and so does a present but empty one.
   */
  predicate PassesValidation(r: Reservation)
    ensures PassesValidation(r) ==>
      r.childFirstName.Some? && r.childLastName.Some? && r.email.Some? && r.dates.Some?
    ensures (|| r.childFirstName == Some("") || r.childLastName == Some("") || r.email == Some("")
             || r.dates == Some([])) ==> !PassesValidation(r)
    ensures (&& r.childFirstName.Some? && r.childFirstName != Some("")
             && r.childLastName.Some? && r.childLastName != Some("")
             && r.email.Some? && r.email != Some("")
             && r.dates.Some? && r.dates != Some([])) ==> PassesValidation(r)
  {
    && Filled(r.childFirstName)
    && Filled(r.childLastName)
    && Filled(r.email)
    && r.dates.Some? && |r.dates.value| != 0
  }

  /**
   * Validation never looks at `id` or `timestamp`, so judging the merged
   * record is judging the submitted body, whatever was generated.
   */
  lemma MergedValidationIsBodyValidation(generatedId: string, generatedTimestamp: string, body: Reservation)
    ensures PassesValidation(Merge(generatedId, generatedTimestamp, body)) <==> PassesValidation(body)
  {
  }

  // ---------------------------------------------------------------------------
  // The delete filter
  // ---------------------------------------------------------------------------

  /** Some record of `rs` has exactly the id `id`. */
  predicate HasId(rs: seq<Reservation>, id: string) {
    exists r :: r in rs && r.id == Some(id)
  }

  /** How many records of `rs` have the id `id`. */
  function Matches(rs: seq<Reservation>, id: string): nat {
    if rs == [] then 0
    else (if rs[0].id == Some(id) then 1 else 0) + Matches(rs[1..], id)
  }

  /**
   * `rs.filter(r => r.id !== id)`. A record whose id is absent differs from
   * every string, so it is always kept.
   */
  function Without(rs: seq<Reservation>, id: string): (kept: seq<Reservation>)
    ensures |kept| <= |rs|
    ensures forall r :: r in kept ==> r in rs && r.id != Some(id)
  {
    if rs == [] then []
    else if rs[0].id != Some(id) then [rs[0]] + Without(rs[1..], id)
    else Without(rs[1..], id)
  }

  /** The filter drops exactly the matching records, however many there are. */
  lemma {:induction false} WithoutCount(rs: seq<Reservation>, id: string)
    ensures |Without(rs, id)| == |rs| - Matches(rs, id)
  {
    if rs != [] {
      WithoutCount(rs[1..], id);
    }
  }

  /** At least one record matches exactly when the match count is positive. */
  lemma {:induction false} MatchesPositiveIff(rs: seq<Reservation>, id: string)
    ensures Matches(rs, id) > 0 <==> HasId(rs, id)
  {
    if rs != [] {
      MatchesPositiveIff(rs[1..], id);
      assert rs == [rs[0]] + rs[1..];
      if HasId(rs, id) && rs[0].id != Some(id) {
        var r :| r in rs && r.id == Some(id);
        assert r in rs[1..];
      }
    }
  }

  /** Every record whose id differs from `id` survives the filter. */
  lemma {:induction false} WithoutKeepsOthers(rs: seq<Reservation>, id: string, r: Reservation)
    requires r in rs && r.id != Some(id)
    ensures r in Without(rs, id)
  {
    if r != rs[0] {
      assert rs == [rs[0]] + rs[1..];
      WithoutKeepsOthers(rs[1..], id, r);
    }
  }

  /**
   * The filter distributes over concatenation, so it keeps the surviving
   * records in their original relative order.
   */
  lemma {:induction false} WithoutAppend(a: seq<Reservation>, b: seq<Reservation>, id: string)
    ensures Without(a + b, id) == Without(a, id) + Without(b, id)
  {
    if a == [] {
      assert a + b == b;
    } else {
      assert (a + b)[0] == a[0];
      assert (a + b)[1..] == a[1..] + b;
      WithoutAppend(a[1..], b, id);
    }
  }

  /** With no matching record the filter returns the collection itself. */
  lemma {:induction false} WithoutNoMatch(rs: seq<Reservation>, id: string)
    requires !HasId(rs, id)
    ensures Without(rs, id) == rs
  {
    if rs != [] {
      assert rs[0] in rs;
      assert !HasId(rs[1..], id) by {
        forall r | r in rs[1..] ensures r.id != Some(id) {
          assert r in rs;
        }
      }
      WithoutNoMatch(rs[1..], id);
      assert rs == [rs[0]] + rs[1..];
    }
  }

  /**
   * The delete handler's test `reservations.length === initialLength` holds
   * exactly when no record carries the id, and then nothing was filtered.
   */
  lemma {:induction false} SameLengthIffNoMatch(rs: seq<Reservation>, id: string)
    ensures |Without(rs, id)| == |rs| <==> !HasId(rs, id)
    ensures !HasId(rs, id) ==> Without(rs, id) == rs
  {
    WithoutCount(rs, id);
    MatchesPositiveIff(rs, id);
    if !HasId(rs, id) {
      WithoutNoMatch(rs, id);
    }
  }

  /**
   * Deleting the id of the record a create just appended gives back the
   * earlier collection, provided no earlier record shared that id; with a
   * shared id the earlier records go too.
   */
  lemma RemoveUndoesCreate(rs: seq<Reservation>, r: Reservation, id: string)
    requires r.id == Some(id)
    ensures Without(rs + [r], id) == Without(rs, id)
    ensures !HasId(rs, id) ==> Without(rs + [r], id) == rs
  {
    WithoutAppend(rs, [r], id);
    assert Without([r], id) == [];
    if !HasId(rs, id) {
      WithoutNoMatch(rs, id);
    }
  }

  // ---------------------------------------------------------------------------
  // The file and the handlers' outcomes
  // ---------------------------------------------------------------------------

  /**
   * reservations.json as the server finds it: absent, not parseable, or
   * holding a JSON array of reservations.
   */
  datatype Disk = Missing | Corrupt | Stored(records: seq<Reservation>)

  /**
   * What one `saveReservations` call does. A failed write rejects the
   * request; the file it leaves behind is whatever the file system made of it.
   */
  datatype WriteEffect = Persisted | WriteError(leftBehind: Disk)

  /** `loadReservations`: the stored array, or [] when reading or parsing fails. */
  function Loaded(d: Disk): seq<Reservation>
    ensures d.Stored? ==> Loaded(d) == d.records
    ensures Loaded(d) != [] ==> d.Stored?
  {
    if d.Stored? then d.records else []
  }

  /** What POST /api/reservation answers. */
  datatype CreateOutcome = Created(reservationId: string) | Rejected | CreateFailed {
    function Status(): nat {
      match this
      case Created(_) => 200
      case Rejected => 400
      case CreateFailed => 500
    }
  }

  /** What DELETE /api/reservation/:id answers. */
  datatype RemoveOutcome = Removed | NotFound | RemoveFailed {
    function Status(): nat {
      match this
      case Removed => 200
      case NotFound => 404
      case RemoveFailed => 500
    }
  }

  // ---------------------------------------------------------------------------
  // The store
  // ---------------------------------------------------------------------------

  /** The server's one piece of state: the reservations file. */
  class ReservationStore {
    var file: Disk

    constructor (initial: Disk)
      ensures file == initial
    {
      file := initial;
    }

    /** Read and parse the file; any failure yields the empty collection. */
    method Load() returns (reservations: seq<Reservation>)
      ensures reservations == Loaded(file)
    {
      if file.Stored? {
        reservations := file.records;
      } else {
        reservations := [];
      }
    }

    /** Write the whole collection back, replacing the file's contents. */
    method Save(reservations: seq<Reservation>, write: WriteEffect)
      modifies this
      ensures file == if write.Persisted? then Stored(reservations) else write.leftBehind
    {
      if write.Persisted? {
        file := Stored(reservations);
      } else {
        file := write.leftBehind;
      }
    }

    /**
     * POST /api/reservation. The record is merged first and validated as
     * merged; a rejected request neither loads nor saves. An accepted one is
     * appended after every loaded record, and the reported id is the stored
     * record's id.
     */
    method Create(generatedId: string, generatedTimestamp: string, body: Reservation, write: WriteEffect)
      returns (outcome: CreateOutcome)
      requires WellFormed(body)
      modifies this
      ensures var r := Merge(generatedId, generatedTimestamp, body);
        && (outcome.Status() == 400 <==> !PassesValidation(body))
        && (!PassesValidation(body) ==> outcome == Rejected && file == old(file))
        && (PassesValidation(body) && write.Persisted? ==>
              && r.id.Some?
              && outcome == Created(r.id.value)
              && file == Stored(Loaded(old(file)) + [r]))
        && (PassesValidation(body) && write.WriteError? ==>
              outcome == CreateFailed && file == write.leftBehind)
      ensures outcome.Created? ==>
        && |Loaded(file)| == |Loaded(old(file))| + 1
        && Loaded(file)[..|Loaded(old(file))|] == Loaded(old(file))
        && Loaded(file)[|Loaded(old(file))|].id == Some(outcome.reservationId)
        && Carries(Loaded(file)[|Loaded(old(file))|], body)
        && WellFormed(Loaded(file)[|Loaded(old(file))|])
    {
      var reservation := Merge(generatedId, generatedTimestamp, body);
      MergedValidationIsBodyValidation(generatedId, generatedTimestamp, body);
      if !PassesValidation(reservation) {
        return Rejected;
      }
      var reservations := Load();
      reservations := reservations + [reservation];
      Save(reservations, write);
      if write.Persisted? {
        outcome := Created(reservation.id.value);
        assert reservations[..|reservations| - 1] == Loaded(old(file));
      } else {
        outcome := CreateFailed;
      }
    }

    /** GET /api/reservations: the loaded collection, unchanged. */
    method List() returns (status: nat, reservations: seq<Reservation>)
      ensures status == 200
      ensures reservations == Loaded(file)
    {
      reservations := Load();
      status := 200;
    }

    /**
     * DELETE /api/reservation/:id. Every record with that id goes, the rest
     * keep their order; when none matched the answer is 404 and nothing is
     * written.
     */
    method Remove(id: string, write: WriteEffect) returns (outcome: RemoveOutcome)
      modifies this
      ensures var before := Loaded(old(file));
        && (outcome.Status() == 404 <==> !HasId(before, id))
        && (!HasId(before, id) ==> outcome == NotFound && file == old(file))
        && (HasId(before, id) && write.Persisted? ==>
              && outcome == Removed
              && file == Stored(Without(before, id))
              && |Without(before, id)| == |before| - Matches(before, id)
              && Matches(before, id) >= 1)
        && (HasId(before, id) && write.WriteError? ==>
              outcome == RemoveFailed && file == write.leftBehind)
      ensures outcome.Removed? ==> !HasId(Loaded(file), id)
    {
      var reservations := Load();
      var initialLength := |reservations|;
      ghost var before := reservations;
      reservations := Without(reservations, id);
      SameLengthIffNoMatch(before, id);
      WithoutCount(before, id);
      MatchesPositiveIff(before, id);
      if |reservations| == initialLength {
        return NotFound;
      }
      Save(reservations, write);
      outcome := if write.Persisted? then Removed else RemoveFailed;
    }
  }

  // ---------------------------------------------------------------------------
  // A session against the store
  // ---------------------------------------------------------------------------

  /**
   * Starting from no file: a complete submission is stored and listed, an
   * empty first name is refused, two lists agree, deleting the reported id
   * empties the collection and a second delete of it is not found.
   */
  method BookingSession() returns (created: CreateOutcome, refused: CreateOutcome,
                                   removed: RemoveOutcome, again: RemoveOutcome,
                                   afterwards: seq<Reservation>)
    ensures created == Created("1739180000000") && created.Status() == 200
    ensures refused == Rejected && refused.Status() == 400
    ensures removed == Removed && removed.Status() == 200
    ensures again == NotFound && again.Status() == 404
    ensures afterwards == []
  {
    var store := new ReservationStore(Missing);
    var alice := Reservation(None, None, Some("Alice"), Some("Dupont"), Some("a@b.com"),
                             Some(["2025-02-10", "2025-02-11"]), None, None, map[]);
    created := store.Create("1739180000000", "2025-02-10T09:00:00.000Z", alice, Persisted);
    var _, first := store.List();
    var _, second := store.List();
    assert first == second == [Merge("1739180000000", "2025-02-10T09:00:00.000Z", alice)];
    var nameless := alice.(childFirstName := Some(""), childLastName := None);
    refused := store.Create("1739180000001", "2025-02-10T09:00:01.000Z", nameless, Persisted);
    removed := store.Remove(created.reservationId, Persisted);
    again := store.Remove(created.reservationId, Persisted);
    var _, listed := store.List();
    afterwards := listed;
  }
}
