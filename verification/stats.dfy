/** The stat block (`Stats.load`, `Stats.ce_calc`) and the modifier lookup of
    `CharSheet.roll` through `acmap`, in both of the repository's revisions. */
module StatBlock {
  import opened Results
  import opened Text
  import opened Cells

  datatype Ability = Strength | Dexterity | Constitution | Intelligence | Wisdom | Charisma

  datatype Stats = Stats(
    strength: int, dexterity: int, constitution: int,
    intelligence: int, wisdom: int, charisma: int,
    totalYen: int, totalWealth: int,
    strMod: int, dexMod: int, conMod: int, intMod: int, wisMod: int, chaMod: int,
    coinEncumbrance: bool,
    encumbrance: string)
  {
    /** The `*_mod` field belonging to an ability. */
    function Mod(a: Ability): int {
      match a
      case Strength => strMod
      case Dexterity => dexMod
      case Constitution => conMod
      case Intelligence => intMod
      case Wisdom => wisMod
      case Charisma => chaMod
    }
  }

  /** `int(sheet.value(pos))` */
  function ReadInt(sheet: Snapshot, pos: string): (r: Result<int>)
    ensures r.Err? ==> r.error.NoA1Position? || r.error.CellOutOfBounds? || r.error.NotAnInteger?
  {
    var text :- Value(sheet, pos);
    ParseInt(text)
  }

  /** `int(sheet.unformatted_value(pos))` */
  function ReadUnformattedInt(sheet: Snapshot, pos: string): (r: Result<int>)
    ensures r.Err? ==> r.error.NoA1Position? || r.error.CellOutOfBounds? || r.error.NotAnInteger?
  {
    var text :- UnformattedValue(sheet, pos);
    ParseInt(text)
  }

  /** Every position reads as the number at the same index of `values`. */
  ghost predicate ReadsAll(sheet: Snapshot, positions: seq<string>, values: seq<int>) {
    |values| == |positions| && forall i :: 0 <= i < |positions| ==> ReadInt(sheet, positions[i]) == Ok(values[i])
  }

  /** Some position fails to read with error `e`. */
  ghost predicate SomeReadFails(sheet: Snapshot, positions: seq<string>, e: Error) {
    exists i :: 0 <= i < |positions| && ReadInt(sheet, positions[i]) == Err(e)
  }

  /** A run of `int(sheet.value(pos))` statements, in order: the first failing
      read decides the error, and otherwise every position yields its number. */
  function ReadInts(sheet: Snapshot, positions: seq<string>): (r: Result<seq<int>>)
    ensures r.Ok? ==> ReadsAll(sheet, positions, r.value)
    ensures r.Err? ==> SomeReadFails(sheet, positions, r.error)
    decreases |positions|
  {
    if |positions| == 0 then Ok([])
    else
      match ReadInt(sheet, positions[0])
      case Err(e) => Err(e)
      case Ok(first) =>
        match ReadInts(sheet, positions[1..])
        case Err(e) => ReadFailsLater(sheet, positions, e); Err(e)
        case Ok(rest) => ReadsAllCons(sheet, positions, first, rest); Ok([first] + rest)
  }

  /** A failure past the first position is a failure of the whole run. */
  lemma ReadFailsLater(sheet: Snapshot, positions: seq<string>, e: Error)
    requires |positions| >= 1 && SomeReadFails(sheet, positions[1..], e)
    ensures SomeReadFails(sheet, positions, e)
  {
    var j :| 0 <= j < |positions| - 1 && ReadInt(sheet, positions[1..][j]) == Err(e);
    assert positions[1..][j] == positions[j + 1];
  }

  /** A first number read in front of the rest read gives the whole run. */
  lemma ReadsAllCons(sheet: Snapshot, positions: seq<string>, first: int, rest: seq<int>)
    requires |positions| >= 1 && ReadInt(sheet, positions[0]) == Ok(first)
    requires ReadsAll(sheet, positions[1..], rest)
    ensures ReadsAll(sheet, positions, [first] + rest)
  {
    var r := [first] + rest;
    forall i | 0 <= i < |positions| ensures ReadInt(sheet, positions[i]) == Ok(r[i]) {
      if i > 0 {
        assert positions[i] == positions[1..][i - 1] && r[i] == rest[i - 1];
      }
    }
  }

  /** The coin-encumbrance flag: the cell reads `true` in any mix of cases,
      with nothing around it. */
  function CoinFlag(cell: string): (r: bool)
    ensures r <==> |cell| == 4 && ToLower(cell[0]) == 't' && ToLower(cell[1]) == 'r'
                   && ToLower(cell[2]) == 'u' && ToLower(cell[3]) == 'e'
  {
    var lowered := Lower(cell);
    assert |cell| == 4 ==> lowered == [ToLower(cell[0]), ToLower(cell[1]), ToLower(cell[2]), ToLower(cell[3])];
    lowered == "true"
  }

  /** The front-tab cells of the six ability scores, Strength to Charisma. */
  const ScoreCells: seq<string> := ["F9", "F10", "F11", "F12", "F13", "F14"]

  /** The data-tab cells of the six ability modifiers, Strength to Charisma. */
  const ModCells: seq<string> := ["F2", "F3", "F4", "F5", "F6", "F7"]

  function Scores(st: Stats): seq<int> {
    [st.strength, st.dexterity, st.constitution, st.intelligence, st.wisdom, st.charisma]
  }

  function Mods(st: Stats): seq<int> {
    [st.strMod, st.dexMod, st.conMod, st.intMod, st.wisMod, st.chaMod]
  }

  /** Total yen (`AR6`) and total wealth (`AR23`), read unformatted from the back tab. */
  function LoadWealth(bs: Snapshot): (r: Result<(int, int)>)
    ensures r.Err? ==> r.error.NoA1Position? || r.error.CellOutOfBounds? || r.error.NotAnInteger?
    ensures r.Ok? ==> ReadUnformattedInt(bs, "AR6") == Ok(r.value.0)
                      && ReadUnformattedInt(bs, "AR23") == Ok(r.value.1)
  {
    var ty :- ReadUnformattedInt(bs, "AR6");
    var tw :- ReadUnformattedInt(bs, "AR23");
    Ok((ty, tw))
  }

  /** The coin-encumbrance flag (`B16` of the data tab) and the total
      encumbrance text (`AE34` of the back tab). */
  function LoadEncumbrance(data: Snapshot, bs: Snapshot): (r: Result<(bool, string)>)
    ensures r.Err? ==> r.error.NoA1Position? || r.error.CellOutOfBounds?
    ensures r.Ok? ==> Value(data, "B16").Ok? && r.value.0 == CoinFlag(Value(data, "B16").value)
    ensures r.Ok? ==> Value(bs, "AE34") == Ok(r.value.1)
  {
    var ce :- Value(data, "B16");
    var enc :- Value(bs, "AE34");
    Ok((CoinFlag(ce), enc))
  }

  function MakeStats(scores: seq<int>, wealth: (int, int), mods: seq<int>, enc: (bool, string)): (st: Stats)
    requires |scores| == 6 && |mods| == 6
    ensures Scores(st) == scores && Mods(st) == mods
  {
    Stats(scores[0], scores[1], scores[2], scores[3], scores[4], scores[5], wealth.0, wealth.1,
          mods[0], mods[1], mods[2], mods[3], mods[4], mods[5], enc.0, enc.1)
  }

  /** `Stats.load`: the fixed cells of the front, back and data tabs, read in
      the source's order, so the first unreadable cell decides the error. */
  function LoadStats(fs: Snapshot, bs: Snapshot, data: Snapshot): (r: Result<Stats>)
    ensures r.Err? ==> r.error.NoA1Position? || r.error.CellOutOfBounds? || r.error.NotAnInteger?
    ensures r.Ok? ==> ReadInts(fs, ScoreCells) == Ok(Scores(r.value))
                      && ReadInts(data, ModCells) == Ok(Mods(r.value))
    ensures r.Ok? ==> LoadWealth(bs) == Ok((r.value.totalYen, r.value.totalWealth))
    ensures r.Ok? ==> LoadEncumbrance(data, bs) == Ok((r.value.coinEncumbrance, r.value.encumbrance))
  {
    var scores :- ReadInts(fs, ScoreCells);
    var wealth :- LoadWealth(bs);
    var mods :- ReadInts(data, ModCells);
    var enc :- LoadEncumbrance(data, bs);
    Ok(MakeStats(scores, wealth, mods, enc))
  }

  /** `ceil(ty / 1000)`: the least whole number of thousands that covers `ty`. */
  function CeCalc(ty: int): (r: int)
    ensures (r - 1) * 1000 < ty <= r * 1000
  {
    -((-ty) / 1000)
  }

  lemma CoinExamples()
    ensures CoinFlag("true") && CoinFlag("TRUE") && CoinFlag("True")
    ensures !CoinFlag("false") && !CoinFlag(" true") && !CoinFlag("yes")
    ensures CeCalc(0) == 0 && CeCalc(1) == 1 && CeCalc(1000) == 1 && CeCalc(1001) == 2
    ensures CeCalc(-1500) == -1
  {
  }

  // ---------------------------------------------------------------------------
  // acmap and the modifier argument of roll

  /** `acmap`: the full ability names, lower-case, that name a modifier. */
  const AcMap: map<string, Ability> := map[
    "strength" := Strength, "dexterity" := Dexterity, "constitution" := Constitution,
    "intelligence" := Intelligence, "wisdom" := Wisdom, "charisma" := Charisma]

  function AbilityName(a: Ability): string {
    match a
    case Strength => "strength"
    case Dexterity => "dexterity"
    case Constitution => "constitution"
    case Intelligence => "intelligence"
    case Wisdom => "wisdom"
    case Charisma => "charisma"
  }

  /** `acmap.get(mod.lower())` */
  function ModifierAbility(name: string): (r: Option<Ability>)
    ensures forall a :: r == Some(a) <==> Lower(name) == AbilityName(a)
  {
    var key := Lower(name);
    if key in AcMap then Some(AcMap[key]) else None
  }

  /** The `mod` argument of `roll`: a number, or a name to look up. */
  datatype ModArg = Number(n: int) | Named(name: string)

  /** The modifier the later revision hands back: a number, or `False` when a
      name does not resolve. */
  datatype ModValue = Num(n: int) | False

  /** Python's arithmetic reading of a modifier (`False` counts as 0). */
  function AsInt(m: ModValue): int {
    match m
    case Num(n) => n
    case False => 0
  }

  /** `roll(dice, mod)` in main.py: the dice total plus the modifier, an
      unknown modifier name counting as 0. The dice total is an input, since
      the dice library is not part of this model. */
  function RollMain(stats: Stats, diceTotal: int, mod: ModArg): (r: int)
    ensures mod.Number? ==> r == diceTotal + mod.n
    ensures mod.Named? && Lower(mod.name) !in AcMap ==> r == diceTotal
    ensures forall a :: mod.Named? && Lower(mod.name) == AbilityName(a) ==> r == diceTotal + stats.Mod(a)
  {
    match mod
    case Number(n) => diceTotal + n
    case Named(name) =>
      match ModifierAbility(name)
      case Some(a) => diceTotal + stats.Mod(a)
      case None => diceTotal + 0
  }

  /** `roll(dice, mod)` in ext/utils.py: the pair (dice total, modifier), an
      unknown modifier name giving `False`. */
  function RollUtils(stats: Stats, diceTotal: int, mod: ModArg): (r: (int, ModValue))
    ensures r.0 == diceTotal
    ensures mod.Number? ==> r.1 == Num(mod.n)
    ensures mod.Named? ==> (r.1 == False <==> Lower(mod.name) !in AcMap)
    ensures forall a :: mod.Named? && Lower(mod.name) == AbilityName(a) ==> r.1 == Num(stats.Mod(a))
  {
    match mod
    case Number(n) => (diceTotal, Num(n))
    case Named(name) =>
      match ModifierAbility(name)
      case Some(a) => (diceTotal, Num(stats.Mod(a)))
      case None => (diceTotal, False)
  }

  /** The two revisions of `roll` agree: the later one returns the parts whose
      sum the earlier one returns. A name resolves, case-insensitively, exactly
      when it is a full ability name, and then to that ability's modifier. */
  lemma RollRevisionsAgree(stats: Stats, diceTotal: int, mod: ModArg)
    ensures RollUtils(stats, diceTotal, mod).0 == diceTotal
    ensures RollMain(stats, diceTotal, mod) == diceTotal + AsInt(RollUtils(stats, diceTotal, mod).1)
    ensures mod.Named? ==>
              (RollUtils(stats, diceTotal, mod).1 == False <==> Lower(mod.name) !in AcMap)
    ensures forall a :: mod.Named? && Lower(mod.name) == AbilityName(a) ==>
              RollMain(stats, diceTotal, mod) == diceTotal + stats.Mod(a)
  {
    if mod.Named? {
      var r := ModifierAbility(mod.name);
      if r.Some? {
        assert Lower(mod.name) == AbilityName(r.value);
      }
    }
  }

  /** Modifier names are looked up case-insensitively. */
  lemma ModifierCaseInsensitive(a: string, b: string)
    requires Lower(a) == Lower(b)
    ensures ModifierAbility(a) == ModifierAbility(b)
  {
  }

  lemma ModifierExamples()
    ensures ModifierAbility("Strength") == Some(Strength)
    ensures ModifierAbility("WISDOM") == Some(Wisdom)
    ensures ModifierAbility("str") == None
  {
    assert Lower("Strength") == "strength";
    assert Lower("WISDOM") == "wisdom";
    assert Lower("str") == "str";
  }
}
