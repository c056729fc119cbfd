/**
 `Search`, the entry point of the lookup pipeline: validate the address, try
 the local database when it is available, and otherwise ask the remote
 endpoint, racing it against a timeout.

 Everything the Go function reads from the outside world is a parameter: the
 availability flag as `initialize` leaves it at the start of the call
 (`dbAvail`), the database file as the OUI lookup opens it (`db`), the database
 file as the second open after a timeout sees it (`dbLater`, at least five
 seconds later), and what became of the HTTP request (`remote`), where the race
 against the timer is represented by its winner: `TimedOut` when the timer
 fired first.
 */
module Macfind {
  import opened Outcome
  import opened MacSyntax
  import opened LocalDb

  /** The vendor value that stands for an address the endpoint does not know. */
  const RandomizedSentinel := "?(randomized MAC)"
  /** Appended to a vendor found in the local database. */
  const FromDb := " --from db"
  /** Appended to a vendor read from the endpoint. */
  const FromApi := " --from api"

  const StatusOK := 200
  const StatusNotFound := 404

  /** Reading the body of a 200 response. */
  datatype BodyRead = BodyText(text: string) | BodyReadError

  /** What became of the remote request by the time `Search` looked. */
  datatype RemoteOutcome =
    | TransportError                       // the request failed before any response
    | TimedOut                             // the timer fired before the request finished
    | Response(status: int, body: BodyRead) // a response arrived in time

  /** Handling of a response that arrived in time, or of the failed request. */
  function Answered(remote: RemoteOutcome): (r: Reply)
    requires !remote.TimedOut?
    ensures r.Fail? <==>
      !(remote.Response? && (remote.status == StatusNotFound ||
                             (remote.status == StatusOK && remote.body.BodyText?)))
    ensures remote.TransportError? ==> r == Fail(TransportFailed)
    ensures remote.Response? && remote.status == StatusNotFound ==> r == Ok(RandomizedSentinel)
    ensures remote.Response? && remote.status != StatusNotFound && remote.status != StatusOK ==>
      r == Fail(StatusError(remote.status))
    ensures remote.Response? && remote.status == StatusOK ==>
      r == (if remote.body.BodyText? then Ok(remote.body.text + FromApi) else Fail(BodyReadFailed))
  {
    match remote
    case TransportError => Fail(TransportFailed)
    case Response(status, body) =>
      if status == StatusNotFound then Ok(RandomizedSentinel)
      else if status != StatusOK then Fail(StatusError(status))
      else match body
        case BodyReadError => Fail(BodyReadFailed)
        case BodyText(text) => Ok(text + FromApi)
  }

  /**
   The control flow shared by the code as written and the corrected version;
   they differ only in what a timeout yields, `onTimeout`.
   */
  function Pipeline(hw: string, dbAvail: bool, db: DbFile, remote: RemoteOutcome, onTimeout: Reply): Reply
  {
    var parsed := Parse(hw);
    if !parsed.Ok? then parsed
    else
      var local := SearchDb(parsed.value, db);
      if dbAvail && local.Panic? then Panic
      else if dbAvail && local.Ok? then Ok(local.value + FromDb)
      else if remote.TimedOut? then onTimeout
      else Answered(remote)
  }

  /**
   `Search` as written: on a timeout it runs `searchDB` again, with the full
   address as the key, on the file as it is by then.
   */
  function Search(hw: string, dbAvail: bool, db: DbFile, dbLater: DbFile, remote: RemoteOutcome): (r: Reply)
    ensures !IsMac(hw) ==> r == Fail(InvalidMac(hw))
    ensures IsMac(hw) && dbAvail && SearchDb(hw[..OuiLength], db).Ok? ==>
      r == Ok(SearchDb(hw[..OuiLength], db).value + FromDb)
    ensures IsMac(hw) && dbAvail && SearchDb(hw[..OuiLength], db).Panic? ==> r.Panic?
    ensures IsMac(hw) && (!dbAvail || SearchDb(hw[..OuiLength], db).Fail?) ==>
      r == if remote.TimedOut? then SearchDb(hw, dbLater) else Answered(remote)
  {
    Pipeline(hw, dbAvail, db, remote, SearchDb(hw, dbLater))
  }

  /** An invalid address is rejected whatever the database and the endpoint would have said. */
  lemma InvalidInputShortCircuits(hw: string, dbAvail: bool, db: DbFile, dbLater: DbFile, remote: RemoteOutcome,
                                  dbAvail': bool, db': DbFile, dbLater': DbFile, remote': RemoteOutcome)
    requires !IsMac(hw)
    ensures Search(hw, dbAvail, db, dbLater, remote) == Search(hw, dbAvail', db', dbLater', remote')
    ensures Search(hw, dbAvail, db, dbLater, remote).Fail?
  {
  }

  /** A local hit answers without the remote lookup: the endpoint's behaviour does not matter. */
  lemma LocalHitSkipsRemote(hw: string, db: DbFile, dbLater: DbFile, remote: RemoteOutcome, remote': RemoteOutcome)
    requires IsMac(hw) && SearchDb(hw[..OuiLength], db).Ok?
    ensures Search(hw, true, db, dbLater, remote) == Search(hw, true, db, dbLater, remote')
    ensures EndsWith(Search(hw, true, db, dbLater, remote).value, FromDb)
  {
  }

  /**
   A local miss is a success: with the database available and no line for the
   OUI, the answer is the empty vendor marked as coming from the database, and
   the endpoint is never consulted.
   */
  lemma LocalMissAnswersFromDb(hw: string, lines: seq<string>, dbLater: DbFile, remote: RemoteOutcome)
    requires IsMac(hw) && PassedBefore(hw[..OuiLength], lines, |lines|)
    ensures Search(hw, true, Readable(lines, Eof), dbLater, remote) == Ok(FromDb)
  {
  }

  /** A local error is absorbed: the call goes on exactly as if the database were unavailable. */
  lemma LocalErrorFallsThrough(hw: string, db: DbFile, dbLater: DbFile, remote: RemoteOutcome)
    requires IsMac(hw) && SearchDb(hw[..OuiLength], db).Fail?
    ensures Search(hw, true, db, dbLater, remote) == Search(hw, false, db, dbLater, remote)
  {
  }

  /**
   Every value the code as written returns is the sentinel, a value marked as
   coming from the database or from the endpoint, or (after a timeout) the empty
   string that the second database scan produces.
   */
  lemma OkProvenance(hw: string, dbAvail: bool, db: DbFile, dbLater: DbFile, remote: RemoteOutcome)
    requires Search(hw, dbAvail, db, dbLater, remote).Ok?
    ensures var v := Search(hw, dbAvail, db, dbLater, remote).value;
      v == RandomizedSentinel || EndsWith(v, FromDb) || EndsWith(v, FromApi) || (remote.TimedOut? && v == "")
  {
    if IsMac(hw) && remote.TimedOut? && (!dbAvail || SearchDb(hw[..OuiLength], db).Fail?) && dbLater.Readable? {
      WrongWidthKeyFindsNothing(hw, dbLater.lines, dbLater.end);
    }
  }

  // The timeout branch as written.

  /** The code as written never reports a timeout error, whatever the inputs. */
  lemma NeverTimeoutError(hw: string, dbAvail: bool, db: DbFile, dbLater: DbFile, remote: RemoteOutcome)
    ensures Search(hw, dbAvail, db, dbLater, remote) != Fail(Timeout)
  {
  }

  /**
   After a timeout the caller never sees a timeout error. If the second open
   sees the same file, whose lines all hold a key, a database that failed the
   OUI lookup fails again the same way: the timeout reaches the caller as the
   local database's error.
   */
  lemma TimeoutRepeatsLocalError(hw: string, db: DbFile, dbLater: DbFile)
    requires IsMac(hw) && SearchDb(hw[..OuiLength], db).Fail?
    ensures Search(hw, true, db, dbLater, TimedOut) != Fail(Timeout)
    ensures dbLater == db && (db.Readable? ==> forall j :: 0 <= j < |db.lines| ==> |db.lines[j]| >= KeyWidth) ==>
      Search(hw, true, db, dbLater, TimedOut) == SearchDb(hw[..OuiLength], db)
  {
    if dbLater == db && db.Readable? && forall j :: 0 <= j < |db.lines| ==> |db.lines[j]| >= KeyWidth {
      WrongWidthKeyNeverHits(hw, db.lines, db.end);
    }
  }

  /**
   After a timeout, if the second open reads the whole file without error, the
   timeout turns into an empty vendor with no error: the full address is 17
   bytes long and never equals an 8-byte key. This happens when the database
   was not consulted, or when the first open failed and the second did not.
   */
  lemma TimeoutYieldsEmptyVendor(hw: string, dbAvail: bool, db: DbFile, lines: seq<string>)
    requires IsMac(hw) && (!dbAvail || SearchDb(hw[..OuiLength], db).Fail?)
    requires forall j :: 0 <= j < |lines| ==> |lines[j]| >= KeyWidth
    ensures Search(hw, dbAvail, db, Readable(lines, Eof), TimedOut) == Ok("")
  {
  }

  /** The two consequences of the timeout branch on concrete inputs. */
  lemma TimeoutCounterexample()
    ensures var db := Readable(["FC:FB:FB\tExample Inc."], Eof);
      Search("FC:FB:FB:01:FA:21", false, db, db, TimedOut) == Ok("")
    ensures Search("FC:FB:FB:01:FA:21", true, Unopenable, Unopenable, TimedOut) == Fail(OpenFailed)
  {
    var hw := "FC:FB:FB:01:FA:21";
    assert IsMac(hw) by {
      forall i | 0 <= i < |hw|
        ensures ShapeAt(hw, i)
      {
      }
    }
    TimeoutYieldsEmptyVendor(hw, false, Unopenable, ["FC:FB:FB\tExample Inc."]);
  }

  // The corrected timeout branch.

  /**
   `Search` with a timeout reported as a timeout error: the race against the
   timer exists to bound the wait, so a caller whose wait ran out is owed an
   error that says so.
   */
  function SearchIntended(hw: string, dbAvail: bool, db: DbFile, remote: RemoteOutcome): (r: Reply)
    ensures IsMac(hw) && (!dbAvail || SearchDb(hw[..OuiLength], db).Fail?) && remote.TimedOut? ==>
      r == Fail(Timeout)
    ensures r.Fail? ==> !r.IsLocalError()
  {
    Pipeline(hw, dbAvail, db, remote, Fail(Timeout))
  }

  /** Away from the timeout branch the correction changes nothing. */
  lemma IntendedAgreesBesidesTimeout(hw: string, dbAvail: bool, db: DbFile, dbLater: DbFile, remote: RemoteOutcome)
    requires !remote.TimedOut?
    ensures SearchIntended(hw, dbAvail, db, remote) == Search(hw, dbAvail, db, dbLater, remote)
  {
  }

  /**
   In the corrected version every value is the sentinel or carries the mark of
   where it came from.
   */
  lemma IntendedOkProvenance(hw: string, dbAvail: bool, db: DbFile, remote: RemoteOutcome)
    requires SearchIntended(hw, dbAvail, db, remote).Ok?
    ensures var v := SearchIntended(hw, dbAvail, db, remote).value;
      v == RandomizedSentinel || EndsWith(v, FromDb) || EndsWith(v, FromApi)
  {
  }

  // Example lookups, on concrete inputs.

  /** A local hit returns the vendor text marked as coming from the database. */
  lemma ScenarioLocalHit(dbLater: DbFile, remote: RemoteOutcome)
    ensures Search("FC:FB:FB:01:FA:21", true, Readable(["FC:FB:FB\tExample Inc."], Eof), dbLater, remote)
      == Ok("Example Inc." + FromDb)
  {
    var hw := "FC:FB:FB:01:FA:21";
    var line := "FC:FB:FB\tExample Inc.";
    assert IsMac(hw) by {
      forall i | 0 <= i < |hw|
        ensures ShapeAt(hw, i)
      {
      }
    }
    assert hw[..OuiLength] == "FC:FB:FB";
    assert Hits(line, "FC:FB:FB") && line[VendorStart..] == "Example Inc.";
    FirstHitIgnoresLaterLines("FC:FB:FB", [line], 0, [], Eof);
    assert SearchDb(hw[..OuiLength], Readable([line], Eof)) == Ok("Example Inc.");
  }

  /** An address the endpoint does not know yields the sentinel, not an error. */
  lemma ScenarioRandomized(dbLater: DbFile, body: BodyRead)
    ensures Search("6A:D5:DC:A5:F9:1B", false, Unopenable, dbLater, Response(StatusNotFound, body))
      == Ok(RandomizedSentinel)
  {
    var hw := "6A:D5:DC:A5:F9:1B";
    assert IsMac(hw) by {
      forall i | 0 <= i < |hw|
        ensures ShapeAt(hw, i)
      {
      }
    }
  }

  /** A malformed address is rejected before any lookup. */
  lemma ScenarioMalformed(dbAvail: bool, db: DbFile, dbLater: DbFile, remote: RemoteOutcome)
    ensures Search("6A:D5:DC:Avv:F9:1B:1B", dbAvail, db, dbLater, remote)
      == Fail(InvalidMac("6A:D5:DC:Avv:F9:1B:1B"))
  {
  }
}
