/**
 * Properties of the commands that assign one byte field: SetBaseSkillRank,
 * SetAbilityScore, SetHead, and SetHair, SetWing and SetTail (which then Retint).
 */
module ByteCommands {
  import opened Wrappers
  import opened Codec
  import opened Gff
  import opened Commands
  import Tints

  // ----------------------------------------------------------------- skills

  /** `SkillList` is a list whose entry k (counting from 0) has a byte `Rank`. */
  predicate HasRankSlot(s: Fields, k: nat) {
    && "SkillList" in s && s["SkillList"].List?
    && k < |s["SkillList"].items|
    && "Rank" in s["SkillList"].items[k] && s["SkillList"].items[k]["Rank"].Byte?
  }

  /**
   * t is s with the `Rank` of skill entry k set to r: the list keeps its length,
   * every other entry and every other field of entry k is as before, and
   * everything outside `SkillList` is as before.
   */
  predicate RankWritten(s: Fields, t: Fields, k: nat, r: byte) {
    && t - {"SkillList"} == s - {"SkillList"}
    && "SkillList" in s && s["SkillList"].List? && "SkillList" in t && t["SkillList"].List?
    && var before, after := s["SkillList"].items, t["SkillList"].items;
       && |after| == |before| && k < |before|
       && (forall j | 0 <= j < |before| && j != k :: after[j] == before[j])
       && "Rank" in before[k] && "Rank" in after[k] && after[k]["Rank"] == Byte(r)
       && after[k] - {"Rank"} == before[k] - {"Rank"}
  }

  /**
   * SetBaseSkillRank ends in exactly one of three ways: the rank is written
   * (both numbers convert and entry `skill` has a byte rank); nothing changes
   * and one message is logged, naming the first check that failed; or the
   * process crashes, because `SkillList` or that entry's `Rank` has another type.
   */
  lemma SkillRankOutcome(s: Fields, skill: string, rank: string)
    ensures var e := SetBaseSkillRank(s, skill, rank);
      e.Done? && e.log == [] <==>
        ParseByte(skill).Some? && ParseByte(rank).Some? && HasRankSlot(s, ParseByte(skill).value)
    ensures var e := SetBaseSkillRank(s, skill, rank);
      e.Done? && e.log == [] ==> RankWritten(s, e.root, ParseByte(skill).value, ParseByte(rank).value)
    ensures var e := SetBaseSkillRank(s, skill, rank);
      e.Done? && e.log != [] ==> e.root == s && |e.log| == 1
    ensures ParseByte(skill).None? ==> SetBaseSkillRank(s, skill, rank) == Done(s, [InvalidSkillNumber])
    ensures ParseByte(skill).Some? && ParseByte(rank).None? ==>
      SetBaseSkillRank(s, skill, rank) == Done(s, [InvalidRankNumber])
    ensures ParseByte(skill).Some? && ParseByte(rank).Some? && "SkillList" !in s ==>
      SetBaseSkillRank(s, skill, rank) == Done(s, [MissingSkillList("Invalid skill", rank)])
    ensures (ParseByte(skill).Some? && ParseByte(rank).Some? && "SkillList" in s && s["SkillList"].List? &&
             ParseByte(skill).value >= |s["SkillList"].items|) ==>
      SetBaseSkillRank(s, skill, rank) == Done(s, [UnknownSkill("Invalid skill", rank)])
    ensures (ParseByte(skill).Some? && ParseByte(rank).Some? && "SkillList" in s && s["SkillList"].List? &&
             ParseByte(skill).value < |s["SkillList"].items| &&
             "Rank" !in s["SkillList"].items[ParseByte(skill).value]) ==>
      SetBaseSkillRank(s, skill, rank) == Done(s, [CorruptSkillEntry("Invalid skill", rank)])
    ensures var e := SetBaseSkillRank(s, skill, rank);
      e.Crash? <==>
        ParseByte(skill).Some? && ParseByte(rank).Some? && "SkillList" in s &&
        (!s["SkillList"].List? ||
         (ParseByte(skill).value < |s["SkillList"].items| &&
          "Rank" in s["SkillList"].items[ParseByte(skill).value] &&
          !s["SkillList"].items[ParseByte(skill).value]["Rank"].Byte?))
  {
    if ParseByte(skill).Some? && ParseByte(rank).Some? && HasRankSlot(s, ParseByte(skill).value) {
      var k, r := ParseByte(skill).value, ParseByte(rank).value;
      var before := s["SkillList"].items;
      var entry := before[k]["Rank" := Byte(r)];
      var t := s["SkillList" := List(before[k := entry])];
      assert SetBaseSkillRank(s, skill, rank) == Done(t, []);
      assert entry - {"Rank"} == before[k] - {"Rank"};
      assert t - {"SkillList"} == s - {"SkillList"};
    }
  }

  /** Every skill message names "Invalid skill" (the name of skill 0) and repeats the rank as given. */
  lemma SkillMessagesNameInvalidSkill(s: Fields, skill: string, rank: string)
    ensures SetBaseSkillRank(s, skill, rank).Done? ==>
      forall d | d in SetBaseSkillRank(s, skill, rank).log ::
        (d.MissingSkillList? || d.UnknownSkill? || d.CorruptSkillEntry?) ==>
          d.skill == "Invalid skill" && d.rank == rank
  {
  }

  /** ParseSkill knows 28 names: 1 to 27 and 29. */
  lemma SkillNames(b: byte)
    ensures SkillName(b) == "Invalid skill" <==> b == 0 || b == 28 || b > 29
  {
  }

  /** The skill number counts from 0: "5" names the sixth entry of `SkillList`. */
  lemma SkillNumberCountsFromZero()
    ensures
      var entry := map["Rank" := Byte(0)];
      var s := map["SkillList" := List([entry, entry, entry, entry, entry, entry])];
      SetBaseSkillRank(s, "5", "10") ==
        Done(map["SkillList" := List([entry, entry, entry, entry, entry, map["Rank" := Byte(10)]])], [])
  {
    Decimal1("5");
    Decimal2("10");
    assert ParseByte("5") == Some(5) && ParseByte("10") == Some(10);
    var entry := map["Rank" := Byte(0)];
    var rows := [entry, entry, entry, entry, entry, entry];
    assert entry["Rank" := Byte(10)] == map["Rank" := Byte(10)];
    assert rows[5 := map["Rank" := Byte(10)]] == [entry, entry, entry, entry, entry, map["Rank" := Byte(10)]];
  }

  /** Skill 250 on a list of one entry is past the end: one UnknownSkill message and no change. */
  lemma SkillPastEndOfList()
    ensures
      var s := map["SkillList" := List([map["Rank" := Byte(3)]])];
      SetBaseSkillRank(s, "250", "4") == Done(s, [UnknownSkill("Invalid skill", "4")])
  {
    Decimal3("250");
    Decimal1("4");
    assert ParseByte("250") == Some(250) && ParseByte("4") == Some(4);
  }

  // ---------------------------------------------------- top-level bytes

  /** SetAbilityScore: the converted score replaces the ability's byte, or nothing changes. */
  lemma AbilityScoreOutcome(s: Fields, ability: string, score: string)
    ensures SetAbilityScore(s, ability, score) ==
      if ParseByte(score).None? then Done(s, [InvalidNumber])
      else if ability !in s then Done(s, [AbilityNotFound])
      else if s[ability].Byte? then Done(s[ability := Byte(ParseByte(score).value)], [])
      else Done(s, [UpdateFailed])
  {
  }

  /** The assignment that SetHead, SetHair, SetWing and SetTail begin with. */
  lemma RootByteOutcome(s: Fields, key: string, arg: string)
    ensures SetRootByte(s, key, arg) ==
      if ParseByte(arg).None? then Done(s, [InvalidNumber])
      else if key in s && s[key].Byte? then Done(s[key := Byte(ParseByte(arg).value)], [])
      else Done(s, [UpdateFailed])
  {
  }

  /** SetHead writes `Appearance_Head` and nothing else; unlike the other appearance commands it does not Retint. */
  lemma SetHeadOnlyHead(s: Fields, arg: string)
    ensures SetHead(s, arg).Done?
    ensures SetHead(s, arg).root - {"Appearance_Head"} == s - {"Appearance_Head"}
    ensures SetHead(s, arg).log == [] <==>
      ParseByte(arg).Some? && "Appearance_Head" in s && s["Appearance_Head"].Byte?
    ensures SetHead(s, arg).log == [] ==>
      SetHead(s, arg).root["Appearance_Head"] == Byte(ParseByte(arg).value)
    ensures SetHead(s, arg).log != [] ==> SetHead(s, arg).root == s
  {
    RootByteOutcome(s, "Appearance_Head", arg);
  }

  /** SetHair, SetWing and SetTail: Retint runs exactly when the assignment succeeded. */
  lemma AppearanceRetintsAfterWrite(s: Fields, key: string, arg: string)
    ensures SetAppearance(s, key, arg) ==
      if ParseByte(arg).Some? && key in s && s[key].Byte? then Retint(s[key := Byte(ParseByte(arg).value)])
      else Done(s, [if ParseByte(arg).None? then InvalidNumber else UpdateFailed])
  {
    RootByteOutcome(s, key, arg);
  }

  /** Retint run after a top-level byte was written: the byte stays, the body follows the head. */
  lemma RetintAfterWrite(s: Fields, key: string, b: byte, after: Fields)
    requires key != "Tintable" && key != "Tint_Head"
    requires Retint(s[key := Byte(b)]) == Done(after, [])
    ensures key in after && after[key] == Byte(b)
    ensures forall k, ch | 0 <= k < 3 && 0 <= ch < 3 ::
      ReadByte(after, BodyTint + [Records[k], Rgb[ch]]) == ReadByte(s, HeadRecord + [Rgb[ch]])
    ensures forall k | 0 <= k < 3 :: ReadByte(after, BodyTint + [Records[k], "a"]) == Some(0)
    ensures after - {"Tintable", key} == s - {"Tintable", key}
  {
    var s1 := s[key := Byte(b)];
    Tints.RetintCopiesHeadColour(s1, after);
    forall ch | 0 <= ch < 3 ensures ReadByte(s1, HeadRecord + [Rgb[ch]]) == ReadByte(s, HeadRecord + [Rgb[ch]]) {
      assert (HeadRecord + [Rgb[ch]])[0] == "Tint_Head";
    }
    var outside := s1 - {"Tintable"};
    assert after - {"Tintable"} == outside;
    assert key in outside && outside[key] == s1[key];
    assert (after - {"Tintable"})[key] == after[key];
    assert after - {"Tintable", key} == outside - {key};
    assert s1 - {"Tintable", key} == s - {"Tintable", key};
  }

  /**
   * After SetHair, SetWing or SetTail with nothing logged: the field holds the
   * new value, the body records hold head record 1's colour with alpha 0, and
   * nothing else outside `Tintable` changed.
   */
  lemma AppearanceWritesAndRetints(s: Fields, key: string, arg: string, after: Fields)
    requires key != "Tintable" && key != "Tint_Head"
    requires SetAppearance(s, key, arg) == Done(after, [])
    ensures ParseByte(arg).Some? && key in after && after[key] == Byte(ParseByte(arg).value)
    ensures forall k, ch | 0 <= k < 3 && 0 <= ch < 3 ::
      ReadByte(after, BodyTint + [Records[k], Rgb[ch]]) == ReadByte(s, HeadRecord + [Rgb[ch]])
    ensures forall k | 0 <= k < 3 :: ReadByte(after, BodyTint + [Records[k], "a"]) == Some(0)
    ensures after - {"Tintable", key} == s - {"Tintable", key}
  {
    AppearanceRetintsAfterWrite(s, key, arg);
    RetintAfterWrite(s, key, ParseByte(arg).value, after);
  }

  /**
   * With head record 1 and the body records present, SetHair, SetWing and SetTail
   * change nothing but their own field and the twelve body channel leaves.
   */
  lemma AppearanceOnlyChannels(s: Fields, key: string, arg: string, q: Path)
    requires q != [] && q[0] != key && HasStruct(s, HeadRecord)
    requires Tints.BodyRecordsExist(s) && Tints.OffBodyChannels(q)
    ensures Get(SetAppearance(s, key, arg).root, q) == Get(s, q)
  {
    if ParseByte(arg).Some? && SetByte(s, [key], ParseByte(arg).value).Some? {
      var b := ParseByte(arg).value;
      var s1 := SetByte(s, [key], b).value;
      assert Diverge([key], q) by { assert [key][0] != q[0]; }
      SetByteFrame(s, [key], b, q);
      SetByteKeepsStructs(s, [key], b, HeadRecord);
      forall k | 0 <= k < 3 ensures HasStruct(s1, BodyTint + [Records[k]]) {
        SetByteKeepsStructs(s, [key], b, BodyTint + [Records[k]]);
      }
      Tints.RetintOnlyChannels(s1, q);
    }
  }
}
