/** The status-record reader: which lines of a hashcat `--status-json` log
    are decoded, and what the parser takes from a decoded object, with the
    defaults it uses for absent fields. JSON decoding itself is a parameter
    (`Decoder`): the model only knows whether a line decoded and into what. */
module StatusRecords {
  import opened Wrappers
  import opened Text

  /** The `guess` object of a status line. */
  datatype GuessObject = GuessObject(guessBase: Option<string>, guessMod: Option<string>)

  /** The fields of a decoded status line that the parser looks at; `None`
      is a field the object does not have (or, for `guess_mod`, an explicit
      JSON `null`). */
  datatype StatusObject = StatusObject(
    progress: Option<seq<int>>,
    recoveredHashes: Option<seq<int>>,
    guess: Option<GuessObject>,
    timeStart: Option<string>)

  /** An object the parser can read without raising: `progress[0]`,
      `recovered[0]` and `recovered[1]` exist whenever the fields do. */
  predicate WellFormed(o: StatusObject) {
    (o.progress.Some? ==> |o.progress.value| >= 1) &&
    (o.recoveredHashes.Some? ==> |o.recoveredHashes.value| >= 2)
  }

  type StatusJson = o: StatusObject | WellFormed(o)
    witness StatusObject(None, None, None, None)

  /** `json.loads` on one stripped line: `None` is a `JSONDecodeError`. */
  type Decoder = string -> Option<StatusJson>

  /** What one decoded line contributes, after the defaults are applied. */
  datatype Record = Record(
    progress: int,
    cracked: int,
    total: int,
    guessBase: string,
    guessMod: Option<string>,
    timeStart: string)

  const Unknown: string := "unknown"

  /** The values the parser reads from a decoded object: `progress[0]`
      (default `[0]`), `recovered_hashes[0..2]` (default `[0, 0]`),
      `guess.guess_base` (default `"unknown"`), `guess.guess_mod` (default
      `None`) and `time_start` (default `"unknown"`). */
  function ToRecord(o: StatusJson): (r: Record)
    ensures o.progress.None? ==> r.progress == 0
    ensures o.progress.Some? ==> r.progress == o.progress.value[0]
    ensures o.recoveredHashes.None? ==> r.cracked == 0 && r.total == 0
    ensures o.recoveredHashes.Some? ==>
              r.cracked == o.recoveredHashes.value[0] && r.total == o.recoveredHashes.value[1]
    ensures o.guess.None? ==> r.guessBase == Unknown && r.guessMod == None
    ensures o.guess.Some? ==> r.guessMod == o.guess.value.guessMod
    ensures o.guess.Some? ==> r.guessBase == o.guess.value.guessBase.GetOr(Unknown)
    ensures r.timeStart == o.timeStart.GetOr(Unknown)
  {
    var recovered := o.recoveredHashes.GetOr([0, 0]);
    var guess := o.guess.GetOr(GuessObject(None, None));
    Record(o.progress.GetOr([0])[0], recovered[0], recovered[1],
           guess.guessBase.GetOr(Unknown), guess.guessMod, o.timeStart.GetOr(Unknown))
  }

  /** The record a raw line yields: only a line that starts with `{` once
      stripped is decoded, and a line that fails to decode yields nothing. */
  function Accept(line: string, decode: Decoder): (r: Option<Record>)
    ensures !StartsWithBrace(Strip(line)) ==> r == None
    ensures decode(Strip(line)) == None ==> r == None
    ensures StartsWithBrace(Strip(line)) && decode(Strip(line)).Some? ==>
              r == Some(ToRecord(decode(Strip(line)).value))
  {
    var stripped := Strip(line);
    if !StartsWithBrace(stripped) then None
    else match decode(stripped)
      case None => None
      case Some(data) => Some(ToRecord(data))
  }

  /** The records of a file, in file order. */
  function Records(lines: seq<string>, decode: Decoder): seq<Record>
  {
    if |lines| == 0 then []
    else
      var init := Records(lines[..|lines| - 1], decode);
      match Accept(lines[|lines| - 1], decode)
      case None => init
      case Some(r) => init + [r]
  }

  /** One more line adds its record, if it yields one. */
  lemma RecordsStep(lines: seq<string>, i: nat, decode: Decoder)
    requires i < |lines|
    ensures Records(lines[..i + 1], decode) ==
            match Accept(lines[i], decode)
            case None => Records(lines[..i], decode)
            case Some(r) => Records(lines[..i], decode) + [r]
  {
    assert lines[..i + 1][..i] == lines[..i];
  }

  /** Reading is a homomorphism over concatenation of files. */
  lemma {:induction false} RecordsAppend(a: seq<string>, b: seq<string>, decode: Decoder)
    ensures Records(a + b, decode) == Records(a, decode) + Records(b, decode)
    decreases |b|
  {
    if |b| == 0 {
      assert a + b == a;
    } else {
      var b' := b[..|b| - 1];
      assert (a + b)[..|a + b| - 1] == a + b';
      assert (a + b)[|a + b| - 1] == b[|b| - 1];
      RecordsAppend(a, b', decode);
    }
  }

  /** Every line in `junk` is skipped: none starts with `{` once stripped,
      or none decodes. */
  predicate AllSkipped(junk: seq<string>, decode: Decoder) {
    forall i :: 0 <= i < |junk| ==> Accept(junk[i], decode) == None
  }

  lemma {:induction false} SkippedLinesYieldNothing(junk: seq<string>, decode: Decoder)
    requires AllSkipped(junk, decode)
    ensures Records(junk, decode) == []
    decreases |junk|
  {
    if |junk| > 0 {
      SkippedLinesYieldNothing(junk[..|junk| - 1], decode);
    }
  }

  /** Inserting lines that are skipped anywhere in a file does not change
      the records read from it. */
  lemma InsertedJunkIgnored(a: seq<string>, junk: seq<string>, b: seq<string>, decode: Decoder)
    requires AllSkipped(junk, decode)
    ensures Records(a + junk + b, decode) == Records(a + b, decode)
  {
    RecordsAppend(a + junk, b, decode);
    RecordsAppend(a, junk, decode);
    RecordsAppend(a, b, decode);
    SkippedLinesYieldNothing(junk, decode);
  }
}
