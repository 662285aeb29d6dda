/**
 * The Movie record and its derived values: profit, the formatted runtime, the
 * released and successful flags, the display string and the model's own
 * validation. Nullable database columns are `Option`s; Python truthiness
 * (`None` and `0` are false) is written out.
 */
module Movies {
  import opened Wrappers
  import opened Strings

  /** A calendar date, ordered year, then month, then day. */
  datatype Date = Date(year: int, month: int, day: int)

  predicate After(a: Date, b: Date) {
    a.year > b.year
    || (a.year == b.year && a.month > b.month)
    || (a.year == b.year && a.month == b.month && a.day > b.day)
  }

  /** The fields of a movie that the derived values read. `voteAverage` is
      the decimal rating in hundredths (two decimal places in the database). */
  datatype Movie = Movie(
    title: Option<string>,
    budget: Option<nat>,
    revenue: Option<nat>,
    runtime: Option<nat>,
    releaseDate: Option<Date>,
    movieStatus: Option<string>,
    voteAverage: Option<int>,
    voteCount: Option<nat>)

  /** Python truthiness of a nullable number. */
  predicate Truthy(x: Option<int>) {
    x.Some? && x.value != 0
  }

  /** `Movie.profit`: revenue minus budget, when both are set and non-zero. */
  function Profit(m: Movie): (r: Option<int>)
    ensures r.Some? <==> Truthy(m.budget) && Truthy(m.revenue)
    ensures r.Some? ==> r.value == m.revenue.value - m.budget.value
  {
    if Truthy(m.budget) && Truthy(m.revenue) then Some(m.revenue.value - m.budget.value) else None
  }

  /** What `profit and profit > 0` evaluates to: the profit itself when it is
      falsy (`None`, or `0` at break-even), else the comparison. */
  datatype SuccessValue = NoneValue | Zero | Bool(b: bool)

  /** `Movie.is_successful`: `None` with no profit, `0` at break-even, else whether the profit is positive. */
  function IsSuccessfulValue(m: Movie): (r: SuccessValue)
    ensures r == NoneValue <==> Profit(m).None?
    ensures r == Zero <==> Profit(m) == Some(0)
    ensures r.Bool? ==> Profit(m).Some? && Profit(m).value != 0 && r.b == (Profit(m).value > 0)
  {
    match Profit(m)
    case None => NoneValue
    case Some(p) => if p == 0 then Zero else Bool(p > 0)
  }

  /** The truth value of `Movie.is_successful`. */
  function IsSuccessful(m: Movie): bool {
    var v := IsSuccessfulValue(m);
    v.Bool? && v.b
  }

  /** A movie is successful exactly when both amounts are set, non-zero, and revenue exceeds budget. */
  lemma IsSuccessfulIff(m: Movie)
    ensures IsSuccessful(m) <==> Truthy(m.budget) && Truthy(m.revenue) && m.revenue.value > m.budget.value
  {
  }

  /** `Movie.is_released`: the status is exactly `'Released'`. */
  function IsReleased(m: Movie): bool {
    m.movieStatus == Some("Released")
  }

  /** The six status choices of the `movie_status` column. */
  const StatusChoices: seq<string> :=
    ["Released", "Post Production", "In Production", "Planned", "Rumored", "Canceled"]

  /** Of the status choices only the first counts as released; a missing status does not. */
  lemma OnlyReleasedIsReleased(m: Movie)
    requires m.movieStatus.None? || m.movieStatus.value in StatusChoices
    ensures IsReleased(m) <==> m.movieStatus == Some(StatusChoices[0])
  {
  }

  /** The date rule of `clean` only ever rejects released movies. */
  lemma FutureReleaseIsReleased(m: Movie, today: Date)
    ensures FutureRelease(m, today) ==> IsReleased(m)
  {
  }

  /** Whole hours and remaining minutes of a runtime. */
  function HoursMinutes(runtime: nat): (hm: (nat, nat))
    ensures 60 * hm.0 + hm.1 == runtime && hm.1 < 60
  {
    (runtime / 60, runtime % 60)
  }

  /** `{h}h {m}m`, or `{m}m` under an hour. */
  function FormatRuntime(runtime: nat): string {
    var (h, m) := HoursMinutes(runtime);
    if h > 0 then NatToString(h) + "h " + NatToString(m) + "m" else NatToString(m) + "m"
  }

  /** `Movie.runtime_formatted`: `None` for a missing or zero runtime. */
  function RuntimeFormatted(mv: Movie): (r: Option<string>)
    ensures r.None? <==> !Truthy(mv.runtime)
  {
    if Truthy(mv.runtime) then Some(FormatRuntime(mv.runtime.value)) else None
  }

  /** Reads a formatted runtime back into minutes: the inverse of `FormatRuntime`. */
  function ParseRuntime(s: string): Option<nat> {
    if s == [] || s[|s| - 1] != 'm' then None
    else
      var body := s[..|s| - 1];
      match FirstIndex(body, 'h')
      case None =>
        if body != [] && AllDigits(body) then Some(DigitsValue(body)) else None
      case Some(i) =>
        var hours, rest := body[..i], body[i + 1..];
        if hours != [] && AllDigits(hours) && rest != [] && rest[0] == ' '
           && rest[1..] != [] && AllDigits(rest[1..])
        then Some(60 * DigitsValue(hours) + DigitsValue(rest[1..]))
        else None
  }

  /** The formatted runtime names exactly the runtime it was made from. */
  lemma ParseFormatRuntime(runtime: nat)
    ensures ParseRuntime(FormatRuntime(runtime)) == Some(runtime)
  {
    var (h, m) := HoursMinutes(runtime);
    DigitsValueOfNatToString(h);
    DigitsValueOfNatToString(m);
    if h > 0 {
      ParseHoursAndMinutes(NatToString(h), NatToString(m));
    } else {
      ParseMinutes(NatToString(m));
    }
  }

  /** `{hs}h {ms}m` reads back as `hs` hours and `ms` minutes. */
  lemma ParseHoursAndMinutes(hs: string, ms: string)
    requires hs != [] && AllDigits(hs) && ms != [] && AllDigits(ms)
    ensures ParseRuntime(hs + "h " + ms + "m") == Some(60 * DigitsValue(hs) + DigitsValue(ms))
  {
    var s := hs + "h " + ms + "m";
    assert s[..|s| - 1] == hs + "h " + ms;
    HoursBody(hs, ms);
  }

  /** `{hs}h {ms}` splits at its first `h` into `hs` and ` {ms}`. */
  lemma HoursBody(hs: string, ms: string)
    requires AllDigits(hs)
    ensures var body := hs + "h " + ms;
      FirstIndex(body, 'h') == Some(|hs|) && body[..|hs|] == hs && body[|hs| + 1..][1..] == ms
      && body[|hs| + 1..] != [] && body[|hs| + 1..][0] == ' '
  {
    var body := hs + "h " + ms;
    assert forall j :: 0 <= j < |hs| ==> body[j] == hs[j] && body[j] != 'h';
    assert body[|hs|] == 'h';
    assert body[|hs| + 1..] == " " + ms;
  }

  /** `{ms}m` reads back as `ms` minutes. */
  lemma ParseMinutes(ms: string)
    requires ms != [] && AllDigits(ms)
    ensures ParseRuntime(ms + "m") == Some(DigitsValue(ms))
  {
    var s := ms + "m";
    assert s[..|s| - 1] == ms;
    assert forall j :: 0 <= j < |ms| ==> ms[j] != 'h';
  }

  /** A runtime shown by the admin is one the movie really has. */
  lemma RuntimeFormattedRoundTrip(mv: Movie)
    requires Truthy(mv.runtime)
    ensures ParseRuntime(RuntimeFormatted(mv).value) == mv.runtime
  {
    ParseFormatRuntime(mv.runtime.value);
  }

  /** `Movie.__str__`: the title, or `Untitled Movie` for a missing or empty title. */
  function Str(m: Movie): (r: string)
    ensures r != ""
    ensures m.title.Some? && m.title.value != "" ==> r == m.title.value
    ensures m.title.None? || m.title.value == "" ==> r == "Untitled Movie"
  {
    if m.title.Some? && m.title.value != "" then m.title.value else "Untitled Movie"
  }

  /** The error `Movie.clean` raises: the field it is attached to and the message. */
  datatype ValidationError = ValidationError(field: string, message: string)

  /** A released movie dated after `today`. */
  predicate FutureRelease(m: Movie, today: Date) {
    m.releaseDate.Some? && After(m.releaseDate.value, today) && m.movieStatus == Some("Released")
  }

  /** A non-zero rating with a missing or zero number of votes. */
  predicate VotesMissing(m: Movie) {
    Truthy(m.voteAverage) && !Truthy(m.voteCount)
  }

  /** `Movie.clean`, with the current date passed in: the release-date rule is checked first. */
  function Clean(m: Movie, today: Date): Result<(), ValidationError> {
    if m.releaseDate.Some? && After(m.releaseDate.value, today) && m.movieStatus == Some("Released") then
      Err(ValidationError("release_date", "A released movie cannot have a future release date."))
    else if Truthy(m.voteAverage) && !Truthy(m.voteCount) then
      Err(ValidationError("vote_count", "Vote count is required when vote average is provided."))
    else Ok(())
  }

  /** `clean` accepts exactly the movies that break neither rule, and names the first rule broken. */
  lemma CleanVerdict(m: Movie, today: Date)
    ensures Clean(m, today).Ok? <==> !FutureRelease(m, today) && !VotesMissing(m)
    ensures Clean(m, today).Err? && Clean(m, today).error.field == "release_date" <==> FutureRelease(m, today)
    ensures Clean(m, today).Err? && Clean(m, today).error.field == "vote_count" <==> !FutureRelease(m, today) && VotesMissing(m)
  {
  }

  /** A movie that is not released is never rejected for its date, however late it is. */
  lemma UnreleasedDateAccepted(m: Movie, today: Date)
    requires !IsReleased(m) && !VotesMissing(m)
    ensures Clean(m, today).Ok?
  {
  }
}
