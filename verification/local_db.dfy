/**
 The local resolver `searchDB`: a first-match scan of the local database, a
 text file whose lines have the form `<OUI, 8 bytes><TAB><vendor text>`.

 The file is given abstractly: either it cannot be opened, or it yields a
 sequence of lines and possibly a read error. Strings stand for Go byte
 strings, one element per byte, so slicing and lengths are those of the Go
 code. The scan slices the key `line[0:8]` of every line it reaches, and the
 vendor text `line[9:]` of a matching line only: a line shorter than the
 8-byte key, or a matching line of exactly 8 bytes (no room for the
 separator), makes a slice go out of range, which in Go is a panic.
 */
module LocalDb {
  import opened Outcome

  /** Width of the key field at the start of a line. */
  const KeyWidth := 8
  /** Index where the vendor text starts: after the key and the one separator byte. */
  const VendorStart := 9

  /**
   How reading the file went. A scanner that meets a read error records it and
   may still hand out the lines it had already buffered; `recordedBefore` is the
   index of the first line handed out after the error was recorded (any value
   not below the number of lines: the error came after the last line).
   */
  datatype ScanEnd = Eof | ScanError(recordedBefore: nat)

  /** The local database as `searchDB` sees it. */
  datatype DbFile = Unopenable | Readable(lines: seq<string>, end: ScanEnd)

  /** The scanner's error is already recorded when line `k` is handed out. */
  predicate ErrorRecordedBy(end: ScanEnd, k: nat) {
    end.ScanError? && end.recordedBefore <= k
  }

  /** The same reading seen from the second line on. */
  function AfterFirstLine(end: ScanEnd): (e: ScanEnd)
    ensures forall k: nat :: ErrorRecordedBy(e, k) <==> ErrorRecordedBy(end, k + 1)
    ensures e.ScanError? <==> end.ScanError?
  {
    match end
    case Eof => Eof
    case ScanError(n) => ScanError(if n == 0 then 0 else n - 1)
  }

  /** The scan reads past `line`: its key is readable and differs from `key`. */
  predicate Passes(line: string, key: string) {
    |line| >= KeyWidth && line[..KeyWidth] != key
  }

  /** The scan stops at `line` and takes its vendor text. */
  predicate Hits(line: string, key: string) {
    |line| >= VendorStart && line[..KeyWidth] == key
  }

  /** The scan stops at `line` with an out-of-range slice. */
  predicate Crashes(line: string, key: string) {
    |line| < KeyWidth || (|line| < VendorStart && line[..KeyWidth] == key)
  }

  /** Every line before index `k` is read past. */
  ghost predicate PassedBefore(key: string, lines: seq<string>, k: int)
    requires 0 <= k <= |lines|
  {
    forall j :: 0 <= j < k ==> Passes(lines[j], key)
  }

  /**
   The loop of `searchDB` over the lines of an opened file, followed by the
   check of the scanner's error: the first line that is not read past decides
   the result. A hit is returned unless the error was recorded before that line
   was handed out; if every line is read past, a read error is reported and
   otherwise the empty string is returned.
   */
  function Scan(key: string, lines: seq<string>, end: ScanEnd): (r: Reply)
    ensures r.Panic? <==>
      exists k :: 0 <= k < |lines| && PassedBefore(key, lines, k) && Crashes(lines[k], key)
    ensures forall k :: 0 <= k < |lines| && PassedBefore(key, lines, k) && Hits(lines[k], key) ==>
      r == (if ErrorRecordedBy(end, k) then Fail(ScanFailed) else Ok(lines[k][VendorStart..]))
    ensures PassedBefore(key, lines, |lines|) ==>
      r == (if end.ScanError? then Fail(ScanFailed) else Ok(""))
    ensures r.Fail? ==> r == Fail(ScanFailed) && end.ScanError?
    decreases |lines|
  {
    if |lines| == 0 then
      if end.ScanError? then Fail(ScanFailed) else Ok("")
    else if |lines[0]| < KeyWidth then
      Panic
    else if lines[0][..KeyWidth] == key then
      if |lines[0]| < VendorStart then Panic
      else if ErrorRecordedBy(end, 0) then Fail(ScanFailed)
      else Ok(lines[0][VendorStart..])
    else
      var r := Scan(key, lines[1..], AfterFirstLine(end));
      ShiftPassed(key, lines);
      r
  }

  /** Once the first line is read past, the scan of the rest sees the same lines shifted by one. */
  lemma ShiftPassed(key: string, lines: seq<string>)
    requires |lines| > 0 && Passes(lines[0], key)
    ensures forall k :: 0 <= k < |lines| - 1 ==>
      (PassedBefore(key, lines[1..], k) <==> PassedBefore(key, lines, k + 1))
    ensures PassedBefore(key, lines[1..], |lines| - 1) <==> PassedBefore(key, lines, |lines|)
  {
  }

  /** `searchDB`: open the file, then scan it. */
  function SearchDb(key: string, db: DbFile): (r: Reply)
    ensures db.Unopenable? ==> r == Fail(OpenFailed)
    ensures db.Readable? ==> r == Scan(key, db.lines, db.end)
    ensures r.Fail? ==> r.IsLocalError()
  {
    match db
    case Unopenable => Fail(OpenFailed)
    case Readable(lines, end) => Scan(key, lines, end)
  }

  /**
   The same scan as the Go `for scanner.Scan()` loop with its `break`, then the
   check of `scanner.Err()`: after a `break` the error is set if it was recorded
   before the matching line was handed out; after the last line it is set
   whenever reading ended on an error.
   */
  method ScanLoop(key: string, lines: seq<string>, end: ScanEnd) returns (r: Reply)
    ensures r == Scan(key, lines, end)
  {
    var res := "";
    var stopped := false;
    var i := 0;
    while i < |lines|
      invariant 0 <= i <= |lines|
      invariant PassedBefore(key, lines, i)
    {
      var line := lines[i];
      if |line| < KeyWidth {
        return Panic;
      }
      if line[..KeyWidth] == key {
        if |line| < VendorStart {
          return Panic;
        }
        res := line[VendorStart..];
        stopped := true;
        break;
      }
      i := i + 1;
    }
    var errSet := if stopped then ErrorRecordedBy(end, i) else end.ScanError?;
    if errSet {
      return Fail(ScanFailed);
    }
    return Ok(res);
  }

  /** A database whose every line has a key and a separator never makes the scan panic. */
  lemma WellFormedNeverPanics(key: string, db: DbFile)
    requires db.Readable? ==> forall j :: 0 <= j < |db.lines| ==> |db.lines[j]| >= VendorStart
    ensures !SearchDb(key, db).Panic?
  {
  }

  /**
   The first hit decides: lines after it change nothing, and a read error
   changes the answer only if it was recorded before the hit was handed out.
   */
  lemma FirstHitIgnoresLaterLines(key: string, lines: seq<string>, k: nat, more: seq<string>, end: ScanEnd)
    requires k < |lines| && PassedBefore(key, lines, k) && Hits(lines[k], key)
    ensures SearchDb(key, Readable(lines, Eof)) == Ok(lines[k][VendorStart..])
    ensures SearchDb(key, Readable(lines + more, end)) ==
      (if ErrorRecordedBy(end, k) then Fail(ScanFailed) else Ok(lines[k][VendorStart..]))
  {
    var all := lines + more;
    forall j | 0 <= j < k
      ensures Passes(all[j], key)
    {
      assert all[j] == lines[j];
    }
    assert all[k] == lines[k];
  }

  /** A hit on a line handed out after the read error was recorded is reported as the error. */
  lemma HitAfterRecordedError()
    ensures SearchDb("FC:FB:FB", Readable(["FC:FB:FB\tExample Inc."], ScanError(0))) == Fail(ScanFailed)
  {
    FirstHitIgnoresLaterLines("FC:FB:FB", ["FC:FB:FB\tExample Inc."], 0, [], ScanError(0));
  }

  /** A miss is not an error: it answers as an empty database does. */
  lemma MissIsLikeEmptyDb(key: string, lines: seq<string>, end: ScanEnd)
    requires PassedBefore(key, lines, |lines|)
    ensures SearchDb(key, Readable(lines, end)) == SearchDb(key, Readable([], end))
    ensures end == Eof ==> SearchDb(key, Readable(lines, end)) == Ok("")
  {
  }

  /** A scan for a key that is not 8 bytes long that succeeds finds nothing: its value is empty. */
  lemma {:induction false} WrongWidthKeyFindsNothing(key: string, lines: seq<string>, end: ScanEnd)
    requires |key| != KeyWidth
    ensures Scan(key, lines, end).Ok? ==> Scan(key, lines, end) == Ok("")
    decreases |lines|
  {
    if |lines| > 0 && |lines[0]| >= KeyWidth {
      assert |lines[0][..KeyWidth]| == KeyWidth;
      WrongWidthKeyFindsNothing(key, lines[1..], AfterFirstLine(end));
    }
  }

  /**
   A key that is not 8 bytes long never matches: a scan for it reads the
   whole file and finds nothing, unless a short line panics first.
   */
  lemma WrongWidthKeyNeverHits(key: string, lines: seq<string>, end: ScanEnd)
    requires |key| != KeyWidth
    requires forall j :: 0 <= j < |lines| ==> |lines[j]| >= KeyWidth
    ensures SearchDb(key, Readable(lines, end)) == (if end.ScanError? then Fail(ScanFailed) else Ok(""))
  {
  }
}
