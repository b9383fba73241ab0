/** Character sheets (`CharSheet`): the pronoun and verb overrides given when
    a sheet is linked, the choice of pronouns and verbs from the sheet's
    gender, and `CharSheet.load` over the three tabs of a fetched workbook. */
module Characters {
  import opened Results
  import opened Text
  import opened Cells
  import opened StatBlock

  /** What the user-data file stores per user: the sheet URL and the split
      overrides (`None` when not given). */
  datatype CharSheet = CharSheet(url: string, prnsOverride: Option<seq<string>>, vrbsOverride: Option<seq<string>>)

  /** `override.lower().split('/')` when the argument is given and non-empty,
      and `None` otherwise. */
  function ParseOverride(arg: Option<string>): (r: Option<seq<string>>)
    ensures r.None? <==> arg.None? || arg.value == ""
    ensures r.Some? ==> |r.value| >= 1 && Join(r.value, '/') == Lower(arg.value)
    ensures r.Some? ==> forall i :: 0 <= i < |r.value| ==> '/' !in r.value[i]
  {
    if arg.Some? && arg.value != "" then Some(Split(Lower(arg.value), '/')) else None
  }

  /** `CharSheet.__init__` */
  function NewCharSheet(url: string, prns: Option<string>, vrbs: Option<string>): CharSheet {
    CharSheet(url, ParseOverride(prns), ParseOverride(vrbs))
  }

  /** Lower-case pieces joined with `/` parse back to the same pieces. */
  lemma OverrideRoundTrip(parts: seq<string>)
    requires |parts| >= 1 && Join(parts, '/') != ""
    requires forall i :: 0 <= i < |parts| ==> '/' !in parts[i]
    requires Lower(Join(parts, '/')) == Join(parts, '/')
    ensures ParseOverride(Some(Join(parts, '/'))) == Some(parts)
  {
    SplitJoin(parts, '/');
  }

  /** A verb override without a `/` is a single verb. */
  lemma SingleVerbOverride(v: string)
    requires v != "" && '/' !in v
    ensures ParseOverride(Some(v)) == Some([Lower(v)])
  {
    LowerKeepsNonLetter(v, '/');
    SplitJoin([Lower(v)], '/');
  }

  // ---------------------------------------------------------------------------
  // Pronouns and verbs

  /** Python truthiness of a stored override: present and a non-empty list. */
  predicate Given(o: Option<seq<string>>) {
    o.Some? && |o.value| > 0
  }

  datatype Voice = Voice(pronouns: seq<string>, verbs: seq<string>)

  const Singular: seq<string> := ["is", "has"]
  const Plural: seq<string> := ["are", "have"]
  const They: seq<string> := ["they", "them", "themselves"]

  /** The pronoun and verb choice of `CharSheet.load` for a lower-cased gender. */
  function SelectVoice(gender: string, prns: Option<seq<string>>, vrbs: Option<seq<string>>): (v: Voice)
    ensures |v.pronouns| >= 1 && |v.verbs| >= 1
    ensures |v.verbs| < 2 ==> Given(vrbs) && |vrbs.value| == 1
  {
    var chosen :=
      if Given(prns) then Voice(prns.value, Singular)
      else if gender == "male" then Voice(["he", "him", "himself"], Singular)
      else if gender == "female" then Voice(["she", "her", "herself"], Singular)
      else Voice(They, Plural);
    if Given(vrbs) then chosen.(verbs := vrbs.value) else chosen
  }

  /** The defaults of `CharSheet.load` (main.py:190-199), as a table: the two
      listed genders and their pronouns; every other gender is addressed as
      "they". */
  const GenderPronouns: map<string, seq<string>> :=
    map["male" := ["he", "him", "himself"], "female" := ["she", "her", "herself"]]

  /** The selection against the table: a given override wins, and without one
      the pronouns come from the table (or "they"), with plural verbs exactly
      for "they". */
  lemma VoiceFollowsTable(gender: string, prns: Option<seq<string>>, vrbs: Option<seq<string>>)
    ensures var v := SelectVoice(gender, prns, vrbs);
            && (Given(prns) ==> v.pronouns == prns.value)
            && (!Given(prns) ==> v.pronouns == (if gender in GenderPronouns then GenderPronouns[gender] else They))
            && (Given(vrbs) ==> v.verbs == vrbs.value)
            && (!Given(vrbs) ==> v.verbs == (if !Given(prns) && gender !in GenderPronouns then Plural else Singular))
  {
  }

  /** Without overrides the verbs agree with the pronouns: plural verbs go
      with "they" and with nothing else. */
  lemma DefaultVerbsAgree(gender: string)
    ensures SelectVoice(gender, None, None).verbs == Plural <==> SelectVoice(gender, None, None).pronouns == They
  {
    assert Singular != Plural;
    assert ["he", "him", "himself"] != They;
    assert ["she", "her", "herself"] != They;
  }

  /** A pronoun override alone keeps the singular verbs, whatever the gender
      and whatever the pronouns given. */
  lemma PronounOverrideKeepsSingular(gender: string, prns: seq<string>)
    requires |prns| > 0
    ensures SelectVoice(gender, Some(prns), None) == Voice(prns, ["is", "has"])
  {
  }

  // ---------------------------------------------------------------------------
  // CharSheet.load

  /** `main.py` and `ext/utils.py` differ in how they case the name and race. */
  datatype Revision = MainScript | UtilsModule

  /** The descriptive fields of the front tab. */
  datatype Profile = Profile(
    name: string, size: string, hair: string, eyes: string, race: string,
    age: int, height: string, weight: string, level: int, gender: string)

  datatype Character = Character(profile: Profile, voice: Voice, image: string, feetPerMove: int, stats: Stats)

  /** The three tabs of a character workbook, each fetched once. */
  datatype Workbook = Workbook(front: Snapshot, back: Snapshot, data: Snapshot)

  /** The outcome of authorising and opening the sheet URL: the workbook, or a
      failure the load's `except` clause names (`KeyError`,
      `SpreadsheetNotFound`, `APIError`), or any other failure. */
  datatype Fetch = Fetched(book: Workbook) | CaughtFailure | OtherFailure

  function NameCase(rev: Revision, s: string): string {
    match rev
    case MainScript => s
    case UtilsModule => Title(s)
  }

  function RaceCase(rev: Revision, s: string): string {
    match rev
    case MainScript => Lower(s)
    case UtilsModule => Title(s)
  }

  /** Every position reads as the text at the same index of `values`. */
  ghost predicate TextsRead(sheet: Snapshot, positions: seq<string>, values: seq<string>) {
    |values| == |positions| && forall i :: 0 <= i < |positions| ==> Value(sheet, positions[i]) == Ok(values[i])
  }

  /** A run of `sheet.value(pos)` statements, in order. */
  function ReadTexts(sheet: Snapshot, positions: seq<string>): (r: Result<seq<string>>)
    ensures r.Ok? ==> TextsRead(sheet, positions, r.value)
    ensures r.Err? ==> r.error.NoA1Position? || r.error.CellOutOfBounds?
    decreases |positions|
  {
    if |positions| == 0 then Ok([])
    else
      match Value(sheet, positions[0])
      case Err(e) => Err(e)
      case Ok(first) =>
        match ReadTexts(sheet, positions[1..])
        case Err(e) => Err(e)
        case Ok(rest) => TextsReadCons(sheet, positions, first, rest); Ok([first] + rest)
  }

  /** A first text read in front of the rest read gives the whole run. */
  lemma TextsReadCons(sheet: Snapshot, positions: seq<string>, first: string, rest: seq<string>)
    requires |positions| >= 1 && Value(sheet, positions[0]) == Ok(first)
    requires TextsRead(sheet, positions[1..], rest)
    ensures TextsRead(sheet, positions, [first] + rest)
  {
    var r := [first] + rest;
    forall i | 0 <= i < |positions| ensures Value(sheet, positions[i]) == Ok(r[i]) {
      if i > 0 {
        assert positions[i] == positions[1..][i - 1] && r[i] == rest[i - 1];
      }
    }
  }

  /** Name, size, hair, eyes and race. */
  const LookCells: seq<string> := ["B1", "B3", "H3", "O3", "T1"]

  /** Height and weight. */
  const BuildCells: seq<string> := ["U3", "AA3"]

  function Looks(p: Profile): seq<string> {
    [p.name, p.size, p.hair, p.eyes, p.race]
  }

  function Build(p: Profile): seq<string> {
    [p.height, p.weight]
  }

  function MakeProfile(looks: seq<string>, age: int, build: seq<string>, level: int, gender: string): (p: Profile)
    requires |looks| == 5 && |build| == 2
    ensures Looks(p) == looks && Build(p) == build
    ensures p.age == age && p.level == level && p.gender == gender
  {
    Profile(looks[0], looks[1], looks[2], looks[3], looks[4], age, build[0], build[1], level, gender)
  }

  /** Each field of `p` is what its front-tab cell reads. */
  ghost predicate ProfileRead(fs: Snapshot, p: Profile) {
    && ReadTexts(fs, LookCells) == Ok(Looks(p))
    && ReadInt(fs, "AF3") == Ok(p.age) && ReadInt(fs, "P1") == Ok(p.level)
    && ReadTexts(fs, BuildCells) == Ok(Build(p))
    && Value(fs, "AB1") == Ok(p.gender)
  }

  /** The front-tab reads of `CharSheet.load`, in the source's order, before
      any casing. */
  function ReadProfile(fs: Snapshot): (r: Result<Profile>)
    ensures r.Err? ==> r.error.NoA1Position? || r.error.CellOutOfBounds? || r.error.NotAnInteger?
    ensures r.Ok? ==> ProfileRead(fs, r.value)
  {
    var looks :- ReadTexts(fs, LookCells);
    var age :- ReadInt(fs, "AF3");
    var build :- ReadTexts(fs, BuildCells);
    var level :- ReadInt(fs, "P1");
    var gender :- Value(fs, "AB1");
    Ok(MakeProfile(looks, age, build, level, gender))
  }

  /** The casing `CharSheet.load` applies to the fields it reads. */
  function CaseProfile(rev: Revision, raw: Profile): (p: Profile)
    ensures Lower(p.size) == p.size && Lower(p.hair) == p.hair
    ensures Lower(p.eyes) == p.eyes && Lower(p.gender) == p.gender
    ensures Lower(p.size) == Lower(raw.size) && Lower(p.gender) == Lower(raw.gender)
    ensures Lower(p.race) == Lower(raw.race) || rev == UtilsModule
    ensures Lower(p.hair) == Lower(raw.hair) && Lower(p.eyes) == Lower(raw.eyes)
    ensures p.name == NameCase(rev, raw.name) && p.race == RaceCase(rev, raw.race)
    ensures p.age == raw.age && p.height == raw.height && p.weight == raw.weight && p.level == raw.level
  {
    LowerIdempotent(raw.size);
    LowerIdempotent(raw.hair);
    LowerIdempotent(raw.eyes);
    LowerIdempotent(raw.race);
    LowerIdempotent(raw.gender);
    raw.(name := NameCase(rev, raw.name), size := Lower(raw.size), hair := Lower(raw.hair),
         eyes := Lower(raw.eyes), race := RaceCase(rev, raw.race), gender := Lower(raw.gender))
  }

  function LoadProfile(rev: Revision, fs: Snapshot): (r: Result<Profile>)
    ensures r.Err? ==> r.error.NoA1Position? || r.error.CellOutOfBounds? || r.error.NotAnInteger?
    ensures r.Ok? <==> ReadProfile(fs).Ok?
    ensures r.Ok? ==> r.value == CaseProfile(rev, ReadProfile(fs).value)
  {
    var raw :- ReadProfile(fs);
    Ok(CaseProfile(rev, raw))
  }

  /** The reads after the description: the image URL (stripped), the feet
      moved per turn and the stat block. */
  function LoadBody(book: Workbook): (r: Result<(string, int, Stats)>)
    ensures r.Err? ==> r.error.NoA1Position? || r.error.CellOutOfBounds? || r.error.NotAnInteger?
    ensures r.Ok? ==> var im := r.value.0; |im| > 0 ==> !IsSpace(im[0]) && !IsSpace(im[|im| - 1])
    ensures r.Ok? ==> Value(book.front, "BC8").Ok? && r.value.0 == Strip(Value(book.front, "BC8").value)
    ensures r.Ok? ==> ReadInt(book.front, "AV12") == Ok(r.value.1)
    ensures r.Ok? ==> LoadStats(book.front, book.back, book.data) == Ok(r.value.2)
  {
    var image :- Value(book.front, "BC8");
    var fpm :- ReadInt(book.front, "AV12");
    var stats :- LoadStats(book.front, book.back, book.data);
    Ok((Strip(image), fpm, stats))
  }

  /** The part of `CharSheet.load` after the workbook has been fetched. */
  function LoadFromBook(rev: Revision, sheet: CharSheet, book: Workbook): (r: Result<Character>)
    ensures r.Err? ==> !r.error.InvalidSheet? && !r.error.BackendError?
    ensures r.Ok? ==> |r.value.voice.pronouns| >= 1 && |r.value.voice.verbs| >= 2
    ensures r == Err(TooFewVerbs) ==> Given(sheet.vrbsOverride) && |sheet.vrbsOverride.value| == 1
    ensures r.Ok? ==> var im := r.value.image; |im| > 0 ==> !IsSpace(im[0]) && !IsSpace(im[|im| - 1])
    ensures r.Ok? ==> LoadStats(book.front, book.back, book.data) == Ok(r.value.stats)
    ensures r.Ok? ==> LoadProfile(rev, book.front) == Ok(r.value.profile)
    ensures r.Ok? ==> r.value.voice == SelectVoice(r.value.profile.gender, sheet.prnsOverride, sheet.vrbsOverride)
    ensures LoadProfile(rev, book.front).Err? ==> r == Err(LoadProfile(rev, book.front).error)
    ensures r.Ok? ==> LoadBody(book) == Ok((r.value.image, r.value.feetPerMove, r.value.stats))
  {
    var profile :- LoadProfile(rev, book.front);
    Describe(profile, sheet, book)
  }

  /** The part of `CharSheet.load` after the front tab's profile: the voice,
      the check that the description has its second verb, and the body. */
  function Describe(profile: Profile, sheet: CharSheet, book: Workbook): (r: Result<Character>)
    ensures r.Err? ==> !r.error.InvalidSheet? && !r.error.BackendError?
    ensures r.Ok? ==> |r.value.voice.pronouns| >= 1 && |r.value.voice.verbs| >= 2
    ensures r == Err(TooFewVerbs) ==> Given(sheet.vrbsOverride) && |sheet.vrbsOverride.value| == 1
    ensures r.Ok? ==> var im := r.value.image; |im| > 0 ==> !IsSpace(im[0]) && !IsSpace(im[|im| - 1])
    ensures r.Ok? ==> LoadStats(book.front, book.back, book.data) == Ok(r.value.stats)
    ensures r.Ok? ==> r.value.profile == profile
    ensures r.Ok? ==> r.value.voice == SelectVoice(profile.gender, sheet.prnsOverride, sheet.vrbsOverride)
    ensures r.Ok? ==> LoadBody(book) == Ok((r.value.image, r.value.feetPerMove, r.value.stats))
    ensures r == Err(TooFewVerbs) <==> |SelectVoice(profile.gender, sheet.prnsOverride, sheet.vrbsOverride).verbs| < 2
  {
    var voice := SelectVoice(profile.gender, sheet.prnsOverride, sheet.vrbsOverride);
    if |voice.verbs| < 2 then Err(TooFewVerbs)
    else
      var body :- LoadBody(book);
      Ok(Character(profile, voice, body.0, body.1, body.2))
  }

  /** `CharSheet.load`: a failure named by the `except` clause becomes the
      invalid-sheet error for this sheet's URL; any other backend failure
      passes through. */
  function LoadCharacter(rev: Revision, sheet: CharSheet, fetch: Fetch): (r: Result<Character>)
    ensures r.Err? && r.error.InvalidSheet? <==> fetch.CaughtFailure?
    ensures r.Err? && r.error.InvalidSheet? ==> r.error.url == sheet.url
    ensures r.Err? && r.error.BackendError? <==> fetch.OtherFailure?
    ensures fetch.Fetched? ==> r == LoadFromBook(rev, sheet, fetch.book)
  {
    match fetch
    case CaughtFailure => Err(InvalidSheet(sheet.url))
    case OtherFailure => Err(BackendError)
    case Fetched(book) => LoadFromBook(rev, sheet, book)
  }

  /** The two revisions read the same cells and fail alike; where they load,
      the later one's name and race are the title case of the earlier one's,
      and everything else is the same. */
  lemma RevisionsAgreeOnProfile(fs: Snapshot)
    ensures LoadProfile(MainScript, fs).Ok? <==> LoadProfile(UtilsModule, fs).Ok?
    ensures LoadProfile(MainScript, fs).Err? ==> LoadProfile(UtilsModule, fs) == LoadProfile(MainScript, fs)
    ensures LoadProfile(MainScript, fs).Ok? ==>
              var m := LoadProfile(MainScript, fs).value;
              LoadProfile(UtilsModule, fs).value == m.(name := Title(m.name), race := Title(m.race))
  {
    var raw := ReadProfile(fs);
    if raw.Ok? {
      CasingRevisionsAgree(raw.value);
    }
  }

  /** The later revision's casing is the earlier one's with the name and race
      title-cased. */
  lemma CasingRevisionsAgree(raw: Profile)
    ensures var m := CaseProfile(MainScript, raw);
            CaseProfile(UtilsModule, raw) == m.(name := Title(m.name), race := Title(m.race))
  {
    TitleIgnoresCase(Lower(raw.race), raw.race);
  }

  /** A verb override without a `/` links fine but can never load: once the
      front tab's profile reads, the description's second verb is missing. */
  lemma SingleVerbNeverLoads(rev: Revision, url: string, prns: Option<string>, v: string, book: Workbook)
    requires v != "" && '/' !in v
    requires LoadProfile(rev, book.front).Ok?
    ensures LoadCharacter(rev, NewCharSheet(url, prns, Some(v)), Fetched(book)) == Err(TooFewVerbs)
  {
    SingleVerbOverride(v);
  }
}
