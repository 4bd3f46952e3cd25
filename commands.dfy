/**
 * What each command of BicFunctions does to the character record, as a
 * function from the tree before to the tree after (plus the diagnostics it
 * logs), and what a whole command line does.
 *
 * The in-place versions of these operations are the methods of
 * `Engine.Document`; each of them is proved to follow the function here of
 * the same name.
 */
module Commands {
  import opened Wrappers
  import opened Codec
  import opened Gff

  /** The kinds of message the program logs for a command it skips or cuts short. */
  datatype Diagnostic =
    | InvalidNumber              // the one number parameter of a command fails `Convert.ToByte`
    | InvalidSkillNumber         // SetBaseSkillRank: the skill number fails `Convert.ToByte`
    | InvalidRankNumber          // SetBaseSkillRank: the rank fails `Convert.ToByte`
    | InvalidColorString         // one of the nine colour fields fails, or the string is too short
    | AbilityNotFound            // SetAbilityScore: the top-level struct has no such field
    | UpdateFailed               // a `GetStructSafe` chain or an assignment inside a command's `try` failed
    | MissingSkillList(skill: string, rank: string)   // SetBaseSkillRank: no `SkillList`
    | UnknownSkill(skill: string, rank: string)       // the skill number is past the list's end
    | CorruptSkillEntry(skill: string, rank: string)  // the skill entry has no `Rank`
    | RetintSourceUnavailable    // Retint could not read the head colour
    | RetintTargetUnavailable    // Retint could not write the body colour
    | UnknownCommand

  /**
   * The outcome of one command: the tree afterwards with what was logged, or an
   * exception raised outside every `try`, which ends the process.
   */
  datatype Effect = Done(root: Fields, log: seq<Diagnostic>) | Crash

  const HairTint: Path := ["Tint_Hair", "Tintable", "Tint"]
  const HeadTint: Path := ["Tint_Head", "Tintable", "Tint"]
  const BodyTint: Path := ["Tintable", "Tint"]
  /** Colour record 1 of the head, the source of Retint. */
  const HeadRecord: Path := ["Tint_Head", "Tintable", "Tint", "1"]

  /** The labels of the three colour records of a tint group, and of their channels. */
  const Records: seq<string> := ["1", "2", "3"]
  const Rgb: seq<string> := ["r", "g", "b"]
  const Argb: seq<string> := ["a"] + Rgb

  // ---------------------------------------------------------------- skills

  /**
   * ParseSkill: the name of a skill number. SetBaseSkillRank calls it before it
   * has converted its parameter, on the initial 0, so every message it logs
   * names "Invalid skill".
   */
  function SkillName(skill: byte): string {
    match skill
    case 1 => "Concentration"
    case 2 => "Disable trap"
    case 3 => "Discipline"
    case 4 => "Heal"
    case 5 => "Hide"
    case 6 => "Listen"
    case 7 => "Lore"
    case 8 => "Move silently"
    case 9 => "Open lock"
    case 10 => "Parry"
    case 11 => "Perform"
    case 12 => "Diplomacy"
    case 13 => "Sleight of hand"
    case 14 => "Search"
    case 15 => "Set trap"
    case 16 => "Spellcraft"
    case 17 => "Spot"
    case 18 => "Taunt"
    case 19 => "Use magic device"
    case 20 => "Appraise"
    case 21 => "Tumble"
    case 22 => "Craft trap"
    case 23 => "Bluff"
    case 24 => "Intimidate"
    case 25 => "Craft armor"
    case 26 => "Craft weapon"
    case 27 => "Craft alchemy"
    case 29 => "Survival"
    case _ => "Invalid skill"
  }

  /**
   * SetBaseSkillRank: the skill number is used directly as a position in
   * `SkillList`. Reading `SkillList` as a list and writing `Rank` as a byte
   * happen outside any `try`, so a field of another type there is a Crash.
   */
  function SetBaseSkillRank(s: Fields, skill: string, rank: string): Effect {
    var name := SkillName(0);
    match ParseByte(skill)
    case None => Done(s, [InvalidSkillNumber])
    case Some(k) =>
      match ParseByte(rank)
      case None => Done(s, [InvalidRankNumber])
      case Some(r) =>
        if "SkillList" !in s then Done(s, [MissingSkillList(name, rank)])
        else match s["SkillList"]
          case List(skills) =>
            if k >= |skills| then Done(s, [UnknownSkill(name, rank)])
            else if "Rank" !in skills[k] then Done(s, [CorruptSkillEntry(name, rank)])
            else if skills[k]["Rank"].Byte? then
              Done(s["SkillList" := List(skills[k := skills[k]["Rank" := Byte(r)]])], [])
            else Crash
          case _ => Crash
  }

  // ------------------------------------------------------ top-level bytes

  /** SetAbilityScore: writes the byte field labelled ability in the top-level struct. */
  function SetAbilityScore(s: Fields, ability: string, score: string): Effect {
    match ParseByte(score)
    case None => Done(s, [InvalidNumber])
    case Some(b) =>
      if ability !in s then Done(s, [AbilityNotFound])
      else match SetByte(s, [ability], b)
        case None => Done(s, [UpdateFailed])
        case Some(s') => Done(s', [])
  }

  /** The conversion and the one assignment that SetHead, SetHair, SetWing and SetTail begin with. */
  function SetRootByte(s: Fields, key: string, arg: string): Effect {
    match ParseByte(arg)
    case None => Done(s, [InvalidNumber])
    case Some(b) =>
      match SetByte(s, [key], b)
      case None => Done(s, [UpdateFailed])
      case Some(s') => Done(s', [])
  }

  function SetHead(s: Fields, arg: string): Effect {
    SetRootByte(s, "Appearance_Head", arg)
  }

  /** SetHair, SetWing and SetTail: the assignment, then Retint when it succeeded. */
  function SetAppearance(s: Fields, key: string, arg: string): Effect {
    var e := SetRootByte(s, key, arg);
    if e.Done? && e.log == [] then Retint(e.root) else e
  }

  function SetHair(s: Fields, arg: string): Effect {
    SetAppearance(s, "Appearance_Hair", arg)
  }

  function SetWing(s: Fields, arg: string): Effect {
    SetAppearance(s, "Wings", arg)
  }

  function SetTail(s: Fields, arg: string): Effect {
    SetAppearance(s, "Tail", arg)
  }

  // ------------------------------------------------------------ tint groups

  /** The three `GetStructSafe` chains to records "1", "2" and "3" under base, in that order. */
  function EnsureRecords(s: Fields, base: Path): (Fields, bool) {
    match Ensure(s, base + ["1"])
    case None => (s, false)
    case Some(s1) =>
      match Ensure(s1, base + ["2"])
      case None => (s1, false)
      case Some(s2) =>
        match Ensure(s2, base + ["3"])
        case None => (s2, false)
        case Some(s3) => (s3, true)
  }

  /** The nine assignments r, g, b of records 1, 2, 3 under base, from the nine channel values. */
  function RgbWrites(base: Path, c: seq<byte>): (ws: seq<Write>)
    requires |c| == 9
    ensures |ws| == 9 && WellFormed(ws)
    ensures forall i | 0 <= i < 9 :: ws[i] == Write(base + [Records[i / 3], Rgb[i % 3]], c[i])
  {
    seq(9, i requires 0 <= i < 9 => Write(base + [Records[i / 3], Rgb[i % 3]], c[i]))
  }

  /** The twelve assignments a, r, g, b of records 1, 2, 3 under base. */
  function ArgbWrites(base: Path, v: seq<byte>): (ws: seq<Write>)
    requires |v| == 12
    ensures |ws| == 12 && WellFormed(ws)
    ensures forall i | 0 <= i < 12 :: ws[i] == Write(base + [Records[i / 4], Argb[i % 4]], v[i])
  {
    seq(12, i requires 0 <= i < 12 => Write(base + [Records[i / 4], Argb[i % 4]], v[i]))
  }

  /**
   * The part of a tint command inside its second `try`: reach the three records,
   * then assign the channels in order; a failure is logged as failure.
   */
  function WriteGroup(s: Fields, base: Path, ws: seq<Write>, failure: Diagnostic): (e: Effect)
    requires WellFormed(ws)
    ensures e.Done? && |e.log| <= 1
  {
    var (s1, reached) := EnsureRecords(s, base);
    if !reached then Done(s1, [failure])
    else
      var (s2, written) := ApplyWrites(s1, ws);
      Done(s2, if written then [] else [failure])
  }

  /** SetHairTint and SetHeadTint: convert all nine fields first, then write r, g, b. */
  function SetRgbTint(s: Fields, base: Path, t: string): Effect {
    match ParseTint(t)
    case None => Done(s, [InvalidColorString])
    case Some(c) => WriteGroup(s, base, RgbWrites(base, c), UpdateFailed)
  }

  function SetHairTint(s: Fields, t: string): Effect {
    SetRgbTint(s, HairTint, t)
  }

  function SetHeadTint(s: Fields, t: string): Effect {
    SetRgbTint(s, HeadTint, t)
  }

  /**
   * The twelve values SetBodyTint assigns: each record's alpha stays at the
   * initial 0 (nothing converts it), followed by that record's three channels.
   */
  function BodyValues(c: seq<byte>): (v: seq<byte>)
    requires |c| == 9
    ensures |v| == 12
  {
    seq(12, i requires 0 <= i < 12 => if i % 4 == 0 then 0 else c[3 * (i / 4) + i % 4 - 1])
  }

  function SetBodyTint(s: Fields, t: string): Effect {
    match ParseTint(t)
    case None => Done(s, [InvalidColorString])
    case Some(c) => WriteGroup(s, BodyTint, ArgbWrites(BodyTint, BodyValues(c)), UpdateFailed)
  }

  /** One colour (a, r, g, b) given to all three records. */
  function Replicate(argb: seq<byte>): (v: seq<byte>)
    requires |argb| == 4
    ensures |v| == 12
  {
    seq(12, i requires 0 <= i < 12 => argb[i % 4])
  }

  /**
   * The read phase of Retint: `GetStructSafe` down to head record 1, then its
   * r, g and b as bytes.
   */
  function HeadColour(s: Fields): (Fields, Option<seq<byte>>) {
    match Ensure(s, HeadRecord)
    case None => (s, None)
    case Some(s1) =>
      var r, g, b := ReadByte(s1, HeadRecord + ["r"]), ReadByte(s1, HeadRecord + ["g"]), ReadByte(s1, HeadRecord + ["b"]);
      if r.Some? && g.Some? && b.Some? then (s1, Some([r.value, g.value, b.value])) else (s1, None)
  }

  /** Retint: head record 1's r, g, b, with alpha 0, into all three body records. */
  function Retint(s: Fields): (e: Effect)
    ensures e.Done? && |e.log| <= 1
  {
    var (s1, rgb) := HeadColour(s);
    if rgb.None? then Done(s1, [RetintSourceUnavailable])
    else WriteGroup(s1, BodyTint, ArgbWrites(BodyTint, Replicate([0] + rgb.value)), RetintTargetUnavailable)
  }

  /**
   * ResetBodyTint (never dispatched): like Retint, but head record 1's alpha is
   * read and copied too, and the reads are `ValueByte`.
   */
  function ResetBodyTint(s: Fields): Effect {
    match Ensure(s, HeadRecord)
    case None => Done(s, [RetintSourceUnavailable])
    case Some(s1) =>
      var a, r := ReadByte(s1, HeadRecord + ["a"]), ReadByte(s1, HeadRecord + ["r"]);
      var g, b := ReadByte(s1, HeadRecord + ["g"]), ReadByte(s1, HeadRecord + ["b"]);
      if a.Some? && r.Some? && g.Some? && b.Some? then
        WriteGroup(s1, BodyTint, ArgbWrites(BodyTint, Replicate([a.value, r.value, g.value, b.value])), UpdateFailed)
      else Done(s1, [RetintSourceUnavailable])
  }

  // ---------------------------------------------------------------- batches

  /** One `<operation> <parameter1> <parameter2>` triple of the command line. */
  datatype Command = Command(name: string, param1: string, param2: string)

  predicate Known(name: string) {
    name in {"SetAbilityScore", "SetBaseSkillRank", "SetHead", "SetHair", "SetWing", "SetTail",
             "SetHairTint", "SetHeadTint", "SetBodyTint", "Retint"}
  }

  /** The dispatch of Main: commands that take one parameter ignore the second, Retint both. */
  function Exec(s: Fields, c: Command): Effect {
    if c.name == "SetAbilityScore" then SetAbilityScore(s, c.param1, c.param2)
    else if c.name == "SetBaseSkillRank" then SetBaseSkillRank(s, c.param1, c.param2)
    else if c.name == "SetHead" then SetHead(s, c.param1)
    else if c.name == "SetHair" then SetHair(s, c.param1)
    else if c.name == "SetWing" then SetWing(s, c.param1)
    else if c.name == "SetTail" then SetTail(s, c.param1)
    else if c.name == "SetHairTint" then SetHairTint(s, c.param1)
    else if c.name == "SetHeadTint" then SetHeadTint(s, c.param1)
    else if c.name == "SetBodyTint" then SetBodyTint(s, c.param1)
    else if c.name == "Retint" then Retint(s)
    else Done(s, [UnknownCommand])
  }

  /** One more command after the outcome e of the earlier ones: nothing runs after a Crash. */
  function Step(e: Effect, c: Command): Effect {
    match e
    case Crash => Crash
    case Done(s, log) =>
      match Exec(s, c)
      case Crash => Crash
      case Done(s', more) => Done(s', log + more)
  }

  /** The commands run one after another on the same tree; a Crash ends the batch. */
  function RunCommands(s: Fields, cs: seq<Command>): Effect
    decreases |cs|
  {
    if cs == [] then Done(s, []) else Step(RunCommands(s, cs[..|cs| - 1]), cs[|cs| - 1])
  }

  /** C#'s `%`, which truncates toward zero: `-1 % 3 == -1`. */
  function CsRemainder(a: int, n: int): int
    requires n > 0
  {
    if a >= 0 then a % n else -((-a) % n)
  }

  /** The command-line check of Main. */
  predicate WellFormedCommandLine(args: seq<string>) {
    CsRemainder(|args| - 1, 3) == 0
  }

  /** The triples after the file name. */
  function CommandsOf(args: seq<string>): (cs: seq<Command>)
    requires |args| >= 1 && (|args| - 1) % 3 == 0
    ensures |cs| == (|args| - 1) / 3
  {
    seq((|args| - 1) / 3, i requires 0 <= i < (|args| - 1) / 3 =>
      Command(args[3 * i + 1], args[3 * i + 2], args[3 * i + 3]))
  }

  /**
   * How a run ends: the command line is rejected, the file cannot be opened, a
   * command crashes the process, or every command ran and the tree is saved.
   */
  datatype RunResult = Usage | CannotOpen | Crashed | Saved(tree: Fields, log: seq<Diagnostic>)

  lemma ArityCheck(args: seq<string>)
    ensures WellFormedCommandLine(args) <==> |args| >= 1 && (|args| - 1) % 3 == 0
  {
  }

  /** Main, with `new GFFFile(args[0])` given as loaded (None when it fails). */
  function Run(args: seq<string>, loaded: Option<Fields>): RunResult {
    if !WellFormedCommandLine(args) then Usage
    else if loaded.None? then CannotOpen
    else
      ArityCheck(args);
      match RunCommands(loaded.value, CommandsOf(args))
      case Crash => Crashed
      case Done(tree, log) => Saved(tree, log)
  }
}
