/** Properties of Main: the command-line check and the batch of commands. */
module Batch {
  import opened Wrappers
  import opened Codec
  import opened Gff
  import opened Commands
  import ByteCommands

  /** The messages of earlier commands, in front of whatever the rest of the batch does. */
  function After(log: seq<Diagnostic>, e: Effect): Effect {
    match e
    case Crash => Crash
    case Done(t, rest) => Done(t, log + rest)
  }

  /** What the commands ds do after an outcome e: nothing after a Crash, else run on e's tree. */
  function AndThen(e: Effect, ds: seq<Command>): Effect {
    match e
    case Crash => Crash
    case Done(t, log) => After(log, RunCommands(t, ds))
  }

  /** Earlier messages stay in front when one more command runs. */
  lemma StepAfter(log: seq<Diagnostic>, e: Effect, c: Command)
    ensures Step(After(log, e), c) == After(log, Step(e, c))
  {
    if e.Done? && Exec(e.root, c).Done? {
      assert log + e.log + Exec(e.root, c).log == log + (e.log + Exec(e.root, c).log);
    }
  }

  /** A batch split in two: the second part runs on the tree the first part left. */
  lemma {:induction false} RunCommandsAppend(s: Fields, cs: seq<Command>, ds: seq<Command>)
    ensures RunCommands(s, cs + ds) == AndThen(RunCommands(s, cs), ds)
    decreases |ds|
  {
    if ds == [] {
      assert cs + ds == cs;
      if RunCommands(s, cs).Done? {
        assert RunCommands(s, cs).log + [] == RunCommands(s, cs).log;
      }
    } else {
      var init, last := ds[..|ds| - 1], ds[|ds| - 1];
      assert (cs + ds)[..|cs + ds| - 1] == cs + init;
      assert (cs + ds)[|cs + ds| - 1] == last;
      RunCommandsAppend(s, cs, init);
      var e := RunCommands(s, cs);
      if e.Done? {
        StepAfter(e.log, RunCommands(e.root, init), last);
      }
    }
  }

  /** A batch of one command is that command. */
  lemma RunOne(s: Fields, c: Command)
    ensures RunCommands(s, [c]) == After([], Exec(s, c))
  {
    assert [c][..0] == [];
  }

  /** Commands run left to right: the first, then the rest on its result. */
  lemma RunCommandsCons(s: Fields, c: Command, cs: seq<Command>)
    ensures RunCommands(s, [c] + cs) == AndThen(Exec(s, c), cs)
  {
    RunCommandsAppend(s, [c], cs);
    RunOne(s, c);
    var e := Exec(s, c);
    if e.Done? {
      assert [] + e.log == e.log;
    }
  }

  /** A Crash ends the process: nothing after it runs. */
  lemma CrashEndsBatch(s: Fields, cs: seq<Command>, ds: seq<Command>)
    requires RunCommands(s, cs).Crash?
    ensures RunCommands(s, cs + ds).Crash?
  {
    RunCommandsAppend(s, cs, ds);
  }

  /** An unknown operation is logged and skipped; the rest of the batch runs on the unchanged tree. */
  lemma UnknownCommandSkipped(s: Fields, c: Command, cs: seq<Command>)
    requires !Known(c.name)
    ensures RunCommands(s, [c] + cs) == After([UnknownCommand], RunCommands(s, cs))
  {
    RunCommandsCons(s, c, cs);
  }

  /** Operations of one parameter ignore the second; Retint ignores both. */
  lemma UnusedParametersIgnored(s: Fields, c: Command, p1: string, p2: string)
    ensures c.name != "SetAbilityScore" && c.name != "SetBaseSkillRank" ==>
      Exec(s, c) == Exec(s, c.(param2 := p2))
    ensures c.name == "Retint" ==> Exec(s, c) == Exec(s, Command("Retint", p1, p2))
  {
  }

  /**
   * Main: the command line is rejected exactly when its length is not one more
   * than a multiple of three; the tree is saved exactly when the file opened and
   * no command crashed, and then it is the result of every command in order.
   */
  lemma RunOutcome(args: seq<string>, loaded: Option<Fields>)
    ensures Run(args, loaded) == Usage <==> !(|args| >= 1 && (|args| - 1) % 3 == 0)
    ensures Run(args, loaded).Saved? <==>
      |args| >= 1 && (|args| - 1) % 3 == 0 && loaded.Some? && RunCommands(loaded.value, CommandsOf(args)).Done?
    ensures Run(args, loaded).Saved? ==>
      Run(args, loaded).tree == RunCommands(loaded.value, CommandsOf(args)).root &&
      Run(args, loaded).log == RunCommands(loaded.value, CommandsOf(args)).log
  {
    ArityCheck(args);
  }

  /** Triple i of the command line is the i-th command. */
  lemma CommandsOfTriples(args: seq<string>, i: nat)
    requires |args| >= 1 && (|args| - 1) % 3 == 0 && i < (|args| - 1) / 3
    ensures CommandsOf(args)[i] == Command(args[3 * i + 1], args[3 * i + 2], args[3 * i + 3])
  {
  }

  /** The commands laid back out as a command line after the file name, one triple each. */
  function Flatten(cs: seq<Command>): (args: seq<string>)
    ensures |args| == 3 * |cs|
  {
    if cs == [] then [] else [cs[0].name, cs[0].param1, cs[0].param2] + Flatten(cs[1..])
  }

  /** Triple i of the laid-out line is command i. */
  lemma {:induction false} FlattenAt(cs: seq<Command>, i: nat)
    requires i < |cs|
    ensures Flatten(cs)[3 * i] == cs[i].name
    ensures Flatten(cs)[3 * i + 1] == cs[i].param1
    ensures Flatten(cs)[3 * i + 2] == cs[i].param2
    decreases |cs|
  {
    if i > 0 {
      FlattenAt(cs[1..], i - 1);
    }
  }

  /** Splitting a well-formed command line into commands and laying them out again gives the line after the file name. */
  lemma SplitThenFlatten(args: seq<string>)
    requires |args| >= 1 && (|args| - 1) % 3 == 0
    ensures Flatten(CommandsOf(args)) == args[1..]
  {
    var cs := CommandsOf(args);
    forall j | 0 <= j < |args| - 1 ensures Flatten(cs)[j] == args[1..][j] {
      var i := j / 3;
      FlattenAt(cs, i);
      CommandsOfTriples(args, i);
      assert j == 3 * i || j == 3 * i + 1 || j == 3 * i + 2;
    }
  }

  /** Laying out any commands after a file name gives a well-formed line that splits back into the same commands. */
  lemma FlattenThenSplit(name: string, cs: seq<Command>)
    ensures |[name] + Flatten(cs)| >= 1 && (|[name] + Flatten(cs)| - 1) % 3 == 0
    ensures CommandsOf([name] + Flatten(cs)) == cs
  {
    var args := [name] + Flatten(cs);
    assert |args| - 1 == 3 * |cs|;
    forall i | 0 <= i < |cs| ensures CommandsOf(args)[i] == cs[i] {
      FlattenAt(cs, i);
      CommandsOfTriples(args, i);
    }
  }

  /** A file name alone saves the file as it was. */
  lemma FileNameAlone(name: string, s: Fields)
    ensures Run([name], Some(s)) == Saved(s, [])
  {
    ArityCheck([name]);
    assert CommandsOf([name]) == [];
  }

  /** An unknown operation, then SetHead 7: one message, and the head is 7. */
  lemma UnknownThenSetHead(s: Fields)
    requires "Appearance_Head" in s && s["Appearance_Head"].Byte?
    ensures Run(["char.bic", "Frobnicate", "x", "y", "SetHead", "7", "0"], Some(s)) ==
      Saved(s["Appearance_Head" := Byte(7)], [UnknownCommand])
  {
    var args := ["char.bic", "Frobnicate", "x", "y", "SetHead", "7", "0"];
    ArityCheck(args);
    var c0, c1 := Command("Frobnicate", "x", "y"), Command("SetHead", "7", "0");
    assert CommandsOf(args) == [c0] + [c1];
    UnknownCommandSkipped(s, c0, [c1]);
    RunOne(s, c1);
    Decimal1("7");
    assert ParseByte("7") == Some(7);
    ByteCommands.RootByteOutcome(s, "Appearance_Head", "7");
    assert Exec(s, c1) == Done(s["Appearance_Head" := Byte(7)], []);
  }
}
