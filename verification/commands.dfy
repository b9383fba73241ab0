/** The branch choice of the `roll` command: which reply it sends for the
    stat and modifier options it was given. The rest of the command handlers
    is not part of this model. */
module Commands {
  import opened Results
  import opened Text

  /** The four replies of `roll`: a bare roll, a roll with the modifier, a roll
      for the stat, and a roll for the stat with the modifier. */
  datatype Reply = Plain | WithModifier | ForStat | ForStatWithModifier

  /** Python truthiness of the `mod` option: absent (the default `0`) and the
      empty string are false. */
  predicate ModGiven(mod: Option<string>) {
    mod.Some? && mod.value != ""
  }

  /** The handler's choice as written: the stat is title-cased first and then
      compared with the lower-case `'undefined'`. */
  function RollReplyAsWritten(stat: string, mod: Option<string>): Reply {
    var s := Title(stat);
    if s == "undefined" then Plain
    else if s == "" && ModGiven(mod) then WithModifier
    else if s != "" && !ModGiven(mod) then ForStat
    else ForStatWithModifier
  }

  /** A title-cased string never begins with a lower-case letter. */
  lemma TitleStartsUncased(s: string)
    requires |s| > 0
    ensures !IsLower(Title(s)[0])
  {
  }

  /** As written, the bare-roll reply is unreachable: no stat title-cases to
      `undefined`. */
  lemma PlainUnreachable(stat: string, mod: Option<string>)
    ensures RollReplyAsWritten(stat, mod) != Plain
  {
    if |stat| > 0 {
      TitleStartsUncased(stat);
    }
    assert |Title(stat)| == |stat|;
  }

  /** The option's default, "Undefined", is reported as a roll for a stat
      called Undefined. */
  lemma DefaultStatAsWritten()
    ensures RollReplyAsWritten("Undefined", None) == ForStat
  {
    PlainUnreachable("Undefined", None);
    assert |Title("Undefined")| == 9;
  }

  /** The choice as evidently intended: the default stat gives the bare roll. */
  function RollReplyIntended(stat: string, mod: Option<string>): Reply {
    var s := Title(stat);
    if s == "Undefined" then Plain
    else if s == "" && ModGiven(mod) then WithModifier
    else if s != "" && !ModGiven(mod) then ForStat
    else ForStatWithModifier
  }

  lemma TitleOfUndefined()
    ensures Title("undefined") == "Undefined"
  {
  }

  lemma LowerOfUndefined()
    ensures Lower("Undefined") == "undefined"
  {
  }

  /** The intended choice sends the bare roll exactly for "undefined" in any
      case, and agrees with the as-written choice for every other stat. */
  lemma RollReplyIsIntended(stat: string, mod: Option<string>)
    ensures RollReplyIntended(stat, mod) == Plain <==> Lower(stat) == "undefined"
    ensures Lower(stat) != "undefined" ==> RollReplyIntended(stat, mod) == RollReplyAsWritten(stat, mod)
  {
    TitleOfUndefined();
    LowerOfUndefined();
    if Lower(stat) == "undefined" {
      TitleIgnoresCase(stat, "undefined");
    } else {
      LowerOfTitle(stat);
      PlainUnreachable(stat, mod);
    }
  }
}
