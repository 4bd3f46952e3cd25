/**
 * BicFunctions as it runs: an open file whose top-level struct the commands
 * change in place, one library call at a time, and the command loop of Main.
 *
 * Each method is proved to leave the tree, and return the messages, that the
 * function of the same name in `Commands` describes.
 */
module Engine {
  import opened Wrappers
  import opened Codec
  import opened Gff
  import Commands
  import Batch

  /** An open GFF file: its top-level struct. */
  class Document {
    var root: Fields

    constructor(loaded: Fields)
      ensures root == loaded
    {
      root := loaded;
    }

    // ------------------------------------------------- library calls

    /** `TopLevelStruct.GetStructSafe(p[0]).GetStructSafe(p[1])...`; false when it throws. */
    method GetStructSafe(p: Path) returns (ok: bool)
      modifies this
      ensures ok == Ensure(old(root), p).Some?
      ensures root == if ok then Ensure(old(root), p).value else old(root)
    {
      var r := Ensure(root, p);
      ok := r.Some?;
      if ok {
        root := r.value;
      }
    }

    /** Reading `ValueByte` of the field at p; None when it throws. */
    method ValueByte(p: Path) returns (r: Option<byte>)
      requires p != []
      ensures r == ReadByte(root, p)
    {
      r := ReadByte(root, p);
    }

    /**
     * The next assignment `...["label"].ValueByte = b` of a run inside one `try`:
     * the ghost pending is the run from this assignment on.
     */
    method Assign(p: Path, b: byte, ghost pending: seq<Write>) returns (ok: bool)
      requires WellFormed(pending) && pending != [] && pending[0] == Write(p, b)
      modifies this
      ensures ok ==> ApplyWrites(old(root), pending) == ApplyWrites(root, pending[1..])
      ensures !ok ==> ApplyWrites(old(root), pending) == (root, false)
    {
      var r := SetByte(root, p, b);
      ok := r.Some?;
      if ok {
        root := r.value;
      }
    }

    // ------------------------------------------------- shared command steps

    /** The three GetStructSafe chains to records "1", "2", "3" under base. */
    method GetRecords(base: Path) returns (ok: bool)
      modifies this
      ensures (root, ok) == Commands.EnsureRecords(old(root), base)
    {
      ok := GetStructSafe(base + ["1"]);
      if !ok {
        return;
      }
      ok := GetStructSafe(base + ["2"]);
      if !ok {
        return;
      }
      ok := GetStructSafe(base + ["3"]);
    }

    /** The assignments r, g, b of one record, the start of the run pending. */
    method AssignRgbRecord(record: Path, r: byte, g: byte, b: byte, ghost pending: seq<Write>) returns (ok: bool)
      requires WellFormed(pending) && |pending| >= 3
      requires pending[0] == Write(record + ["r"], r)
      requires pending[1] == Write(record + ["g"], g)
      requires pending[2] == Write(record + ["b"], b)
      modifies this
      ensures ok ==> ApplyWrites(old(root), pending) == ApplyWrites(root, pending[3..])
      ensures !ok ==> ApplyWrites(old(root), pending) == (root, false)
    {
      ok := Assign(record + ["r"], r, pending);
      if !ok { return; }
      ok := Assign(record + ["g"], g, pending[1..]);
      if !ok { return; }
      assert pending[1..][1..] == pending[2..];
      ok := Assign(record + ["b"], b, pending[2..]);
      assert pending[2..][1..] == pending[3..];
    }

    /** The assignments a, r, g, b of one record, the start of the run pending. */
    method AssignArgbRecord(record: Path, a: byte, r: byte, g: byte, b: byte, ghost pending: seq<Write>) returns (ok: bool)
      requires WellFormed(pending) && |pending| >= 4
      requires pending[0] == Write(record + ["a"], a)
      requires pending[1] == Write(record + ["r"], r)
      requires pending[2] == Write(record + ["g"], g)
      requires pending[3] == Write(record + ["b"], b)
      modifies this
      ensures ok ==> ApplyWrites(old(root), pending) == ApplyWrites(root, pending[4..])
      ensures !ok ==> ApplyWrites(old(root), pending) == (root, false)
    {
      ok := Assign(record + ["a"], a, pending);
      if !ok { return; }
      ok := AssignRgbRecord(record, r, g, b, pending[1..]);
      assert pending[1..][3..] == pending[4..];
    }

    /** The nine assignments r, g, b of records 1, 2 and 3, in that order. */
    method AssignRgb(base: Path, c: seq<byte>) returns (ok: bool)
      requires |c| == 9
      modifies this
      ensures (root, ok) == ApplyWrites(old(root), Commands.RgbWrites(base, c))
    {
      ghost var ws := Commands.RgbWrites(base, c);
      assert (base + ["1"]) + ["r"] == ws[0].path && (base + ["1"]) + ["g"] == ws[1].path && (base + ["1"]) + ["b"] == ws[2].path;
      ok := AssignRgbRecord(base + ["1"], c[0], c[1], c[2], ws);
      if !ok { return; }
      assert (base + ["2"]) + ["r"] == ws[3].path && (base + ["2"]) + ["g"] == ws[4].path && (base + ["2"]) + ["b"] == ws[5].path;
      ok := AssignRgbRecord(base + ["2"], c[3], c[4], c[5], ws[3..]);
      if !ok { return; }
      assert ws[3..][3..] == ws[6..];
      assert (base + ["3"]) + ["r"] == ws[6].path && (base + ["3"]) + ["g"] == ws[7].path && (base + ["3"]) + ["b"] == ws[8].path;
      ok := AssignRgbRecord(base + ["3"], c[6], c[7], c[8], ws[6..]);
      assert ws[6..][3..] == [];
    }

    /** The twelve assignments a, r, g, b of records 1, 2 and 3, in that order. */
    method AssignArgb(base: Path, v: seq<byte>) returns (ok: bool)
      requires |v| == 12
      modifies this
      ensures (root, ok) == ApplyWrites(old(root), Commands.ArgbWrites(base, v))
    {
      ghost var ws := Commands.ArgbWrites(base, v);
      ok := AssignArgbRecord(base + ["1"], v[0], v[1], v[2], v[3], ws);
      if !ok { return; }
      ok := AssignArgbRecord(base + ["2"], v[4], v[5], v[6], v[7], ws[4..]);
      if !ok { return; }
      assert ws[4..][4..] == ws[8..];
      ok := AssignArgbRecord(base + ["3"], v[8], v[9], v[10], v[11], ws[8..]);
      assert ws[8..][4..] == [];
    }

    // ------------------------------------------------------- commands

    method SetBaseSkillRank(sSkill: string, sRank: string) returns (log: seq<Commands.Diagnostic>, crashed: bool)
      modifies this
      ensures crashed <==> Commands.SetBaseSkillRank(old(root), sSkill, sRank).Crash?
      ensures !crashed ==> Commands.SetBaseSkillRank(old(root), sSkill, sRank) == Commands.Done(root, log)
    {
      var name := Commands.SkillName(0);
      log, crashed := [], false;
      var skill := ParseByte(sSkill);
      if skill.None? {
        log := [Commands.InvalidSkillNumber];
        return;
      }
      var rank := ParseByte(sRank);
      if rank.None? {
        log := [Commands.InvalidRankNumber];
        return;
      }
      if "SkillList" !in root {
        log := [Commands.MissingSkillList(name, sRank)];
        return;
      }
      var list := root["SkillList"];
      if !list.List? {
        crashed := true;
        return;
      }
      var skills: seq<Fields> := list.items;
      var k := skill.value;
      if k >= |skills| {
        log := [Commands.UnknownSkill(name, sRank)];
        return;
      }
      if "Rank" !in skills[k] {
        log := [Commands.CorruptSkillEntry(name, sRank)];
        return;
      }
      if !skills[k]["Rank"].Byte? {
        crashed := true;
        return;
      }
      root := root["SkillList" := List(skills[k := skills[k]["Rank" := Byte(rank.value)]])];
    }

    method SetAbilityScore(sAbility: string, sScore: string) returns (log: seq<Commands.Diagnostic>)
      modifies this
      ensures Commands.SetAbilityScore(old(root), sAbility, sScore) == Commands.Done(root, log)
    {
      var score := ParseByte(sScore);
      if score.None? {
        return [Commands.InvalidNumber];
      }
      if sAbility !in root {
        return [Commands.AbilityNotFound];
      }
      var ok := Assign([sAbility], score.value, [Write([sAbility], score.value)]);
      log := if ok then [] else [Commands.UpdateFailed];
    }

    /** The conversion and the assignment of `TopLevelStruct[key].ValueByte`. */
    method SetRootByte(key: string, arg: string) returns (log: seq<Commands.Diagnostic>)
      modifies this
      ensures Commands.SetRootByte(old(root), key, arg) == Commands.Done(root, log)
    {
      var b := ParseByte(arg);
      if b.None? {
        return [Commands.InvalidNumber];
      }
      var ok := Assign([key], b.value, [Write([key], b.value)]);
      log := if ok then [] else [Commands.UpdateFailed];
    }

    method SetHead(sHeadId: string) returns (log: seq<Commands.Diagnostic>)
      modifies this
      ensures Commands.SetHead(old(root), sHeadId) == Commands.Done(root, log)
    {
      log := SetRootByte("Appearance_Head", sHeadId);
    }

    method SetHair(sHairId: string) returns (log: seq<Commands.Diagnostic>)
      modifies this
      ensures Commands.SetHair(old(root), sHairId) == Commands.Done(root, log)
    {
      log := SetRootByte("Appearance_Hair", sHairId);
      if log == [] {
        log := Retint();
      }
    }

    method SetWing(sWingType: string) returns (log: seq<Commands.Diagnostic>)
      modifies this
      ensures Commands.SetWing(old(root), sWingType) == Commands.Done(root, log)
    {
      log := SetRootByte("Wings", sWingType);
      if log == [] {
        log := Retint();
      }
    }

    method SetTail(sTailType: string) returns (log: seq<Commands.Diagnostic>)
      modifies this
      ensures Commands.SetTail(old(root), sTailType) == Commands.Done(root, log)
    {
      log := SetRootByte("Tail", sTailType);
      if log == [] {
        log := Retint();
      }
    }

    /** SetHairTint and SetHeadTint: the nine conversions, then the chains and the nine assignments. */
    method SetRgbTint(base: Path, sTint: string) returns (log: seq<Commands.Diagnostic>)
      modifies this
      ensures Commands.SetRgbTint(old(root), base, sTint) == Commands.Done(root, log)
    {
      var c := ParseTint(sTint);
      if c.None? {
        return [Commands.InvalidColorString];
      }
      var ok := GetRecords(base);
      if ok {
        ok := AssignRgb(base, c.value);
      }
      log := if ok then [] else [Commands.UpdateFailed];
    }

    method SetHairTint(sTint: string) returns (log: seq<Commands.Diagnostic>)
      modifies this
      ensures Commands.SetHairTint(old(root), sTint) == Commands.Done(root, log)
    {
      log := SetRgbTint(Commands.HairTint, sTint);
    }

    method SetHeadTint(sTint: string) returns (log: seq<Commands.Diagnostic>)
      modifies this
      ensures Commands.SetHeadTint(old(root), sTint) == Commands.Done(root, log)
    {
      log := SetRgbTint(Commands.HeadTint, sTint);
    }

    method SetBodyTint(sTint: string) returns (log: seq<Commands.Diagnostic>)
      modifies this
      ensures Commands.SetBodyTint(old(root), sTint) == Commands.Done(root, log)
    {
      var c := ParseTint(sTint);
      if c.None? {
        return [Commands.InvalidColorString];
      }
      var ok := GetRecords(Commands.BodyTint);
      if ok {
        ok := AssignArgb(Commands.BodyTint, Commands.BodyValues(c.value));
      }
      log := if ok then [] else [Commands.UpdateFailed];
    }

    method Retint() returns (log: seq<Commands.Diagnostic>)
      modifies this
      ensures Commands.Retint(old(root)) == Commands.Done(root, log)
    {
      var a: byte := 0;
      var ok := GetStructSafe(Commands.HeadRecord);
      if !ok {
        return [Commands.RetintSourceUnavailable];
      }
      var r := ValueByte(Commands.HeadRecord + ["r"]);
      var g := ValueByte(Commands.HeadRecord + ["g"]);
      var b := ValueByte(Commands.HeadRecord + ["b"]);
      if r.None? || g.None? || b.None? {
        return [Commands.RetintSourceUnavailable];
      }
      assert [a] + [r.value, g.value, b.value] == [a, r.value, g.value, b.value];
      ok := GetRecords(Commands.BodyTint);
      if ok {
        ok := AssignArgb(Commands.BodyTint, Commands.Replicate([a, r.value, g.value, b.value]));
      }
      log := if ok then [] else [Commands.RetintTargetUnavailable];
    }

    method ResetBodyTint() returns (log: seq<Commands.Diagnostic>)
      modifies this
      ensures Commands.ResetBodyTint(old(root)) == Commands.Done(root, log)
    {
      var ok := GetStructSafe(Commands.HeadRecord);
      if !ok {
        return [Commands.RetintSourceUnavailable];
      }
      var a := ValueByte(Commands.HeadRecord + ["a"]);
      var r := ValueByte(Commands.HeadRecord + ["r"]);
      var g := ValueByte(Commands.HeadRecord + ["g"]);
      var b := ValueByte(Commands.HeadRecord + ["b"]);
      if a.None? || r.None? || g.None? || b.None? {
        return [Commands.RetintSourceUnavailable];
      }
      ok := GetRecords(Commands.BodyTint);
      if ok {
        ok := AssignArgb(Commands.BodyTint, Commands.Replicate([a.value, r.value, g.value, b.value]));
      }
      log := if ok then [] else [Commands.UpdateFailed];
    }

    /** One step of Main's dispatch. */
    method Exec(c: Commands.Command) returns (log: seq<Commands.Diagnostic>, crashed: bool)
      modifies this
      ensures crashed <==> Commands.Exec(old(root), c).Crash?
      ensures !crashed ==> Commands.Exec(old(root), c) == Commands.Done(root, log)
    {
      crashed := false;
      if c.name == "SetAbilityScore" {
        log := SetAbilityScore(c.param1, c.param2);
      } else if c.name == "SetBaseSkillRank" {
        log, crashed := SetBaseSkillRank(c.param1, c.param2);
      } else if c.name == "SetHead" {
        log := SetHead(c.param1);
      } else if c.name == "SetHair" {
        log := SetHair(c.param1);
      } else if c.name == "SetWing" {
        log := SetWing(c.param1);
      } else if c.name == "SetTail" {
        log := SetTail(c.param1);
      } else if c.name == "SetHairTint" {
        log := SetHairTint(c.param1);
      } else if c.name == "SetHeadTint" {
        log := SetHeadTint(c.param1);
      } else if c.name == "SetBodyTint" {
        log := SetBodyTint(c.param1);
      } else if c.name == "Retint" {
        log := Retint();
      } else {
        log := [Commands.UnknownCommand];
      }
    }
  }

  /**
   * Main, with the file that `new GFFFile(args[0])` opens given as loaded (None
   * when it throws); the result is what is saved, or why nothing is.
   */
  method Run(args: seq<string>, loaded: Option<Fields>) returns (r: Commands.RunResult)
    ensures r == Commands.Run(args, loaded)
  {
    if Commands.CsRemainder(|args| - 1, 3) != 0 {
      return Commands.Usage;
    }
    if loaded.None? {
      return Commands.CannotOpen;
    }
    Commands.ArityCheck(args);
    ghost var cs := Commands.CommandsOf(args);
    assert |args| == 3 * |cs| + 1;
    var file := new Document(loaded.value);
    var log: seq<Commands.Diagnostic> := [];
    var index := 1;
    ghost var n := 0;
    while index < |args|
      invariant index == 3 * n + 1 && index <= |args|
      invariant Commands.RunCommands(loaded.value, cs[..n]) == Commands.Done(file.root, log)
      decreases |args| - index
    {
      var c := Commands.Command(args[index], args[index + 1], args[index + 2]);
      assert c == cs[n];
      assert cs[..n + 1][..n] == cs[..n];
      assert Commands.RunCommands(loaded.value, cs[..n + 1]) == Commands.Step(Commands.Done(file.root, log), c);
      var more, crashed := file.Exec(c);
      if crashed {
        assert cs[..n + 1] + cs[n + 1..] == cs;
        Batch.CrashEndsBatch(loaded.value, cs[..n + 1], cs[n + 1..]);
        return Commands.Crashed;
      }
      log := log + more;
      index := index + 3;
      n := n + 1;
    }
    assert cs[..n] == cs;
    return Commands.Saved(file.root, log);
  }
}
