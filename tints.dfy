/**
 * Properties of the tint commands: the shared write phase (`WriteGroup`) first,
 * then SetHairTint, SetHeadTint, SetBodyTint, Retint and ResetBodyTint.
 */
module Tints {
  import opened Wrappers
  import opened Codec
  import opened Gff
  import opened Commands

  lemma RecordLabelsDistinct(a: int, b: int)
    requires 0 <= a < 3 && 0 <= b < 3 && a != b
    ensures Records[a] != Records[b]
  {
    if a == 0 {
      assert Records[a][0] == '1';
    } else if a == 1 {
      assert Records[a][0] == '2';
    } else {
      assert Records[a][0] == '3';
    }
  }

  lemma ChannelLabelsDistinct(a: int, b: int)
    requires 0 <= a < 4 && 0 <= b < 4 && a != b
    ensures Argb[a] != Argb[b]
  {
    if a == 0 {
      assert Argb[a][0] == 'a';
    } else if a == 1 {
      assert Argb[a][0] == 'r';
    } else if a == 2 {
      assert Argb[a][0] == 'g';
    } else {
      assert Argb[a][0] == 'b';
    }
  }

  /** The nine assignments of a colour command touch nine distinct leaves. */
  lemma RgbWritesIndependent(base: Path, c: seq<byte>)
    requires |c| == 9
    ensures Independent(RgbWrites(base, c))
  {
    var ws := RgbWrites(base, c);
    forall i, j | 0 <= i < j < 9 ensures Diverge(ws[i].path, ws[j].path) {
      if i / 3 != j / 3 {
        RecordLabelsDistinct(i / 3, j / 3);
      } else {
        ChannelLabelsDistinct(i % 3 + 1, j % 3 + 1);
        assert Rgb[i % 3] == Argb[i % 3 + 1] && Rgb[j % 3] == Argb[j % 3 + 1];
      }
      SiblingsDiverge(base, Records[i / 3], Rgb[i % 3], Records[j / 3], Rgb[j % 3]);
    }
  }

  lemma ArgbWritesIndependent(base: Path, v: seq<byte>)
    requires |v| == 12
    ensures Independent(ArgbWrites(base, v))
  {
    var ws := ArgbWrites(base, v);
    forall i, j | 0 <= i < j < 12 ensures Diverge(ws[i].path, ws[j].path) {
      if i / 4 != j / 4 {
        RecordLabelsDistinct(i / 4, j / 4);
      } else {
        ChannelLabelsDistinct(i % 4, j % 4);
      }
      SiblingsDiverge(base, Records[i / 4], Argb[i % 4], Records[j / 4], Argb[j % 4]);
    }
  }

  // ------------------------------------------------------ the record chains

  /** After the three chains succeed, all three records are structs; when they already were, nothing changes. */
  lemma EnsureRecordsReach(s: Fields, base: Path)
    ensures EnsureRecords(s, base).1 ==>
      forall k | 0 <= k < 3 :: HasStruct(EnsureRecords(s, base).0, base + [Records[k]])
    ensures (forall k | 0 <= k < 3 :: HasStruct(s, base + [Records[k]])) ==> EnsureRecords(s, base) == (s, true)
  {
    var p1, p2, p3 := base + ["1"], base + ["2"], base + ["3"];
    assert Records[0] == "1" && Records[1] == "2" && Records[2] == "3";
    if EnsureRecords(s, base).1 {
      var s1 := Ensure(s, p1).value;
      var s2 := Ensure(s1, p2).value;
      var s3 := Ensure(s2, p3).value;
      EnsureGet(s, p1);
      EnsureGet(s1, p2);
      EnsureGet(s2, p3);
      EnsureKeepsStructs(s1, p2, p1);
      EnsureKeepsStructs(s2, p3, p1);
      EnsureKeepsStructs(s2, p3, p2);
    }
    if forall k | 0 <= k < 3 :: HasStruct(s, base + [Records[k]]) {
      assert HasStruct(s, p1) && HasStruct(s, p2) && HasStruct(s, p3);
      EnsureExisting(s, p1);
      EnsureExisting(s, p2);
      EnsureExisting(s, p3);
    }
  }

  /** Running the three chains again, on the tree they produced, changes nothing and ends the same way. */
  lemma EnsureRecordsTwice(s: Fields, base: Path)
    ensures EnsureRecords(EnsureRecords(s, base).0, base) == EnsureRecords(s, base)
  {
    var p1, p2, p3 := base + ["1"], base + ["2"], base + ["3"];
    match Ensure(s, p1)
    case None =>
    case Some(s1) =>
      EnsureGet(s, p1);
      EnsureExisting(s1, p1);
      match Ensure(s1, p2)
      case None =>
      case Some(s2) =>
        EnsureGet(s1, p2);
        EnsureKeepsStructs(s1, p2, p1);
        EnsureExisting(s2, p1);
        EnsureExisting(s2, p2);
        match Ensure(s2, p3)
        case None =>
        case Some(s3) =>
          EnsureRecordsReach(s, base);
          EnsureRecordsReach(s3, base);
  }

  /** The three chains change nothing off their paths. */
  lemma EnsureRecordsFrame(s: Fields, base: Path, q: Path)
    requires q != [] && forall k | 0 <= k < 3 :: Diverge(base + [Records[k]], q)
    ensures Get(EnsureRecords(s, base).0, q) == Get(s, q)
  {
    var p1, p2, p3 := base + ["1"], base + ["2"], base + ["3"];
    assert Records[0] == "1" && Records[1] == "2" && Records[2] == "3";
    assert Diverge(p1, q) && Diverge(p2, q) && Diverge(p3, q);
    match Ensure(s, p1)
    case None =>
    case Some(s1) =>
      EnsureFrame(s, p1, q);
      match Ensure(s1, p2)
      case None =>
      case Some(s2) =>
        EnsureFrame(s1, p2, q);
        if Ensure(s2, p3).Some? {
          EnsureFrame(s2, p3, q);
        }
  }

  // ------------------------------------------------------ the write phase

  /** When no failure was logged, every leaf of the group holds its value. */
  lemma WriteGroupDone(s: Fields, base: Path, ws: seq<Write>, d: Diagnostic, after: Fields, i: nat)
    requires WellFormed(ws) && Independent(ws) && WriteGroup(s, base, ws, d) == Done(after, []) && i < |ws|
    ensures ReadByte(after, ws[i].path) == Some(ws[i].value)
  {
    var (s1, reached) := EnsureRecords(s, base);
    ApplyWritesDone(s1, ws, i);
  }

  /** The write phase changes nothing off the three records and off the leaves it writes. */
  lemma WriteGroupFrame(s: Fields, base: Path, ws: seq<Write>, d: Diagnostic, q: Path)
    requires WellFormed(ws) && q != []
    requires forall k | 0 <= k < 3 :: Diverge(base + [Records[k]], q)
    requires forall i | 0 <= i < |ws| :: Diverge(ws[i].path, q)
    ensures Get(WriteGroup(s, base, ws, d).root, q) == Get(s, q)
  {
    var (s1, reached) := EnsureRecords(s, base);
    EnsureRecordsFrame(s, base, q);
    if reached {
      ApplyWritesFrame(s1, ws, q);
    }
  }

  /** Repeating the write phase on its own result changes nothing and logs the same. */
  lemma WriteGroupTwice(s: Fields, base: Path, ws: seq<Write>, d: Diagnostic)
    requires WellFormed(ws) && Independent(ws)
    ensures WriteGroup(WriteGroup(s, base, ws, d).root, base, ws, d) == WriteGroup(s, base, ws, d)
  {
    var (s1, reached) := EnsureRecords(s, base);
    EnsureRecordsTwice(s, base);
    if reached {
      var (s2, written) := ApplyWrites(s1, ws);
      EnsureRecordsReach(s, base);
      forall k | 0 <= k < 3 ensures HasStruct(s2, base + [Records[k]]) {
        ApplyWritesKeepsStructs(s1, ws, base + [Records[k]]);
      }
      EnsureRecordsReach(s2, base);
      ApplyWritesTwice(s1, ws);
    }
  }

  /**
   * The write phase is not atomic: when an assignment fails after the records
   * were reached, the assignments before it stay in the tree.
   */
  lemma WriteGroupNotAtomic(s: Fields, base: Path, ws: seq<Write>, d: Diagnostic, after: Fields)
    requires WellFormed(ws) && EnsureRecords(s, base).1 && WriteGroup(s, base, ws, d) == Done(after, [d])
    ensures exists k | 0 <= k < |ws| ::
      ApplyWrites(EnsureRecords(s, base).0, ws[..k]) == (after, true) &&
      SetByte(after, ws[k].path, ws[k].value).None?
  {
    var s1 := EnsureRecords(s, base).0;
    assert !ApplyWrites(s1, ws).1;
    ApplyWritesStopsAtFailure(s1, ws);
  }

  /** Helper: two trees that agree on every top-level label outside region agree as maps outside it. */
  lemma SameOutside(s: Fields, t: Fields, region: set<string>)
    requires forall key | key !in region :: Get(t, [key]) == Get(s, [key])
    ensures t - region == s - region
  {
    forall key | key !in region ensures (key in t <==> key in s) && (key in t ==> t[key] == s[key]) {
      assert Get(t, [key]) == Get(s, [key]);
    }
  }

  /** The write phase of a group whose paths all start at base[0] changes nothing outside base[0]. */
  lemma WriteGroupOutside(s: Fields, base: Path, ws: seq<Write>, d: Diagnostic, q: Path)
    requires base != [] && WellFormed(ws) && q != [] && q[0] != base[0]
    requires forall i | 0 <= i < |ws| :: ws[i].path[0] == base[0]
    ensures Get(WriteGroup(s, base, ws, d).root, q) == Get(s, q)
  {
    forall k | 0 <= k < 3 ensures Diverge(base + [Records[k]], q) {
      assert (base + [Records[k]])[0] == base[0];
    }
    forall i | 0 <= i < |ws| ensures Diverge(ws[i].path, q) {
      assert ws[i].path[0] != q[0];
    }
    WriteGroupFrame(s, base, ws, d, q);
  }

  lemma RgbWritesStartAt(base: Path, c: seq<byte>)
    requires base != [] && |c| == 9
    ensures forall i | 0 <= i < 9 :: RgbWrites(base, c)[i].path[0] == base[0]
  {
  }

  lemma ArgbWritesStartAt(base: Path, v: seq<byte>)
    requires base != [] && |v| == 12
    ensures forall i | 0 <= i < 12 :: ArgbWrites(base, v)[i].path[0] == base[0]
  {
  }

  // ------------------------------------------------ SetHairTint, SetHeadTint

  /** A colour string of fewer than 27 characters or with a field that does not convert changes nothing. */
  lemma TintValidatedFirst(s: Fields, t: string)
    requires ParseTint(t).None?
    ensures SetHairTint(s, t) == Done(s, [InvalidColorString])
    ensures SetHeadTint(s, t) == Done(s, [InvalidColorString])
    ensures SetBodyTint(s, t) == Done(s, [InvalidColorString])
  {
  }

  /** Characters after the 27th make no difference to any tint command. */
  lemma TintCommandsIgnoreTail(s: Fields, t: string)
    requires |t| >= 27
    ensures SetHairTint(s, t) == SetHairTint(s, t[..27])
    ensures SetHeadTint(s, t) == SetHeadTint(s, t[..27])
    ensures SetBodyTint(s, t) == SetBodyTint(s, t[..27])
  {
    TintIgnoresTail(t);
  }

  /** After SetHairTint or SetHeadTint with nothing logged, channel ch of record k holds field 3k+ch. */
  lemma RgbTintSetsChannels(s: Fields, base: Path, t: string, after: Fields)
    requires SetRgbTint(s, base, t) == Done(after, [])
    ensures ParseTint(t).Some?
    ensures forall k, ch | 0 <= k < 3 && 0 <= ch < 3 ::
      ReadByte(after, base + [Records[k], Rgb[ch]]) == Some(ParseTint(t).value[3 * k + ch])
  {
    var c := ParseTint(t).value;
    var ws := RgbWrites(base, c);
    RgbWritesIndependent(base, c);
    forall k, ch | 0 <= k < 3 && 0 <= ch < 3
      ensures ReadByte(after, base + [Records[k], Rgb[ch]]) == Some(c[3 * k + ch])
    {
      var i := 3 * k + ch;
      assert i / 3 == k && i % 3 == ch;
      WriteGroupDone(s, base, ws, UpdateFailed, after, i);
    }
  }

  /** SetHairTint and SetHeadTint, whatever happens, change nothing outside their own top-level struct. */
  lemma RgbTintOutside(s: Fields, base: Path, t: string)
    requires base != []
    ensures SetRgbTint(s, base, t).Done?
    ensures SetRgbTint(s, base, t).root - {base[0]} == s - {base[0]}
  {
    var after := SetRgbTint(s, base, t).root;
    if ParseTint(t).Some? {
      var c := ParseTint(t).value;
      RgbWritesStartAt(base, c);
      forall key | key !in {base[0]} ensures Get(after, [key]) == Get(s, [key]) {
        WriteGroupOutside(s, base, RgbWrites(base, c), UpdateFailed, [key]);
      }
    }
    SameOutside(s, after, {base[0]});
  }

  /** When the three records already exist, nothing but the nine channel leaves changes. */
  lemma RgbTintOnlyChannels(s: Fields, base: Path, t: string, q: Path)
    requires q != [] && forall k | 0 <= k < 3 :: HasStruct(s, base + [Records[k]])
    requires forall k, ch | 0 <= k < 3 && 0 <= ch < 3 :: Diverge(base + [Records[k], Rgb[ch]], q)
    ensures SetRgbTint(s, base, t).Done?
    ensures Get(SetRgbTint(s, base, t).root, q) == Get(s, q)
  {
    if ParseTint(t).Some? {
      var c := ParseTint(t).value;
      var ws := RgbWrites(base, c);
      EnsureRecordsReach(s, base);
      forall i | 0 <= i < 9 ensures Diverge(ws[i].path, q) {
        assert ws[i].path == base + [Records[i / 3], Rgb[i % 3]];
      }
      ApplyWritesFrame(s, ws, q);
    }
  }

  /** Repeating SetHairTint or SetHeadTint changes nothing more and logs the same. */
  lemma RgbTintTwice(s: Fields, base: Path, t: string)
    ensures SetRgbTint(s, base, t).Done?
    ensures SetRgbTint(SetRgbTint(s, base, t).root, base, t) == SetRgbTint(s, base, t)
  {
    if ParseTint(t).Some? {
      RgbWritesIndependent(base, ParseTint(t).value);
      WriteGroupTwice(s, base, RgbWrites(base, ParseTint(t).value), UpdateFailed);
    }
  }

  // ------------------------------------------------------------ SetBodyTint

  /** The body write phase, whatever happens, changes nothing outside `Tintable`. */
  lemma BodyGroupOutside(s: Fields, v: seq<byte>, d: Diagnostic)
    requires |v| == 12
    ensures WriteGroup(s, BodyTint, ArgbWrites(BodyTint, v), d).root - {"Tintable"} == s - {"Tintable"}
  {
    var after := WriteGroup(s, BodyTint, ArgbWrites(BodyTint, v), d).root;
    ArgbWritesStartAt(BodyTint, v);
    forall key | key !in {"Tintable"} ensures Get(after, [key]) == Get(s, [key]) {
      WriteGroupOutside(s, BodyTint, ArgbWrites(BodyTint, v), d, [key]);
    }
    SameOutside(s, after, {"Tintable"});
  }

  /** After a full body write, channel ch of record k holds value 4k+ch. */
  lemma BodyGroupCell(s: Fields, v: seq<byte>, d: Diagnostic, after: Fields, k: int, ch: int)
    requires |v| == 12 && WriteGroup(s, BodyTint, ArgbWrites(BodyTint, v), d) == Done(after, [])
    requires 0 <= k < 3 && 0 <= ch < 4
    ensures ReadByte(after, BodyTint + [Records[k], Argb[ch]]) == Some(v[4 * k + ch])
  {
    ArgbWritesIndependent(BodyTint, v);
    var i := 4 * k + ch;
    assert i / 4 == k && i % 4 == ch;
    WriteGroupDone(s, BodyTint, ArgbWrites(BodyTint, v), d, after, i);
  }

  lemma BodyValuesAt(c: seq<byte>, k: int, ch: int)
    requires |c| == 9 && 0 <= k < 3 && 0 <= ch < 3
    ensures BodyValues(c)[4 * k] == 0 && BodyValues(c)[4 * k + ch + 1] == c[3 * k + ch]
  {
    var i := 4 * k + ch + 1;
    assert i / 4 == k && i % 4 == ch + 1;
    assert (4 * k) % 4 == 0;
  }

  lemma ReplicateAt(argb: seq<byte>, k: int, ch: int)
    requires |argb| == 4 && 0 <= k < 3 && 0 <= ch < 4
    ensures Replicate(argb)[4 * k + ch] == argb[ch]
  {
    assert (4 * k + ch) % 4 == ch;
  }

  /** The body write phase of a channel string: alpha 0 in every record, then the record's three channels. */
  lemma BodyGroupRecords(s: Fields, c: seq<byte>, d: Diagnostic, after: Fields)
    requires |c| == 9 && WriteGroup(s, BodyTint, ArgbWrites(BodyTint, BodyValues(c)), d) == Done(after, [])
    ensures forall k | 0 <= k < 3 :: ReadByte(after, BodyTint + [Records[k], "a"]) == Some(0)
    ensures forall k, ch | 0 <= k < 3 && 0 <= ch < 3 ::
      ReadByte(after, BodyTint + [Records[k], Rgb[ch]]) == Some(c[3 * k + ch])
  {
    var v := BodyValues(c);
    forall k | 0 <= k < 3 ensures ReadByte(after, BodyTint + [Records[k], "a"]) == Some(0) {
      BodyGroupCell(s, v, d, after, k, 0);
      BodyValuesAt(c, k, 0);
    }
    forall k, ch | 0 <= k < 3 && 0 <= ch < 3
      ensures ReadByte(after, BodyTint + [Records[k], Rgb[ch]]) == Some(c[3 * k + ch])
    {
      BodyGroupCell(s, v, d, after, k, ch + 1);
      BodyValuesAt(c, k, ch);
      assert Argb[ch + 1] == Rgb[ch];
    }
  }

  /** The body write phase of one colour: every record gets channel ch of argb. */
  lemma BodyGroupReplicated(s: Fields, argb: seq<byte>, d: Diagnostic, after: Fields)
    requires |argb| == 4 && WriteGroup(s, BodyTint, ArgbWrites(BodyTint, Replicate(argb)), d) == Done(after, [])
    ensures forall k, ch | 0 <= k < 3 && 0 <= ch < 4 ::
      ReadByte(after, BodyTint + [Records[k], Argb[ch]]) == Some(argb[ch])
  {
    forall k, ch | 0 <= k < 3 && 0 <= ch < 4
      ensures ReadByte(after, BodyTint + [Records[k], Argb[ch]]) == Some(argb[ch])
    {
      BodyGroupCell(s, Replicate(argb), d, after, k, ch);
      ReplicateAt(argb, k, ch);
    }
  }

  /**
   * After SetBodyTint with nothing logged, each body record has alpha 0 and the
   * record's three fields of the string as r, g, b; head and hair tints, and
   * everything else outside `Tintable`, are as before.
   */
  lemma BodyTintSetsRecords(s: Fields, t: string, after: Fields)
    requires SetBodyTint(s, t) == Done(after, [])
    ensures ParseTint(t).Some?
    ensures forall k | 0 <= k < 3 :: ReadByte(after, BodyTint + [Records[k], "a"]) == Some(0)
    ensures forall k, ch | 0 <= k < 3 && 0 <= ch < 3 ::
      ReadByte(after, BodyTint + [Records[k], Rgb[ch]]) == Some(ParseTint(t).value[3 * k + ch])
    ensures after - {"Tintable"} == s - {"Tintable"}
  {
    var c := ParseTint(t).value;
    BodyGroupRecords(s, c, UpdateFailed, after);
    BodyGroupOutside(s, BodyValues(c), UpdateFailed);
  }

  /** SetBodyTint, whatever happens, changes nothing outside `Tintable`. */
  lemma BodyTintOutside(s: Fields, t: string)
    ensures SetBodyTint(s, t).Done? && SetBodyTint(s, t).root - {"Tintable"} == s - {"Tintable"}
  {
    if ParseTint(t).Some? {
      BodyGroupOutside(s, BodyValues(ParseTint(t).value), UpdateFailed);
    }
  }

  /** The three body colour records are structs already. */
  predicate BodyRecordsExist(s: Fields) {
    forall k | 0 <= k < 3 :: HasStruct(s, BodyTint + [Records[k]])
  }

  /** q lies off all twelve channel leaves a, r, g, b of body records 1, 2 and 3. */
  ghost predicate OffBodyChannels(q: Path) {
    forall k, ch | 0 <= k < 3 && 0 <= ch < 4 :: Diverge(BodyTint + [Records[k], Argb[ch]], q)
  }

  /** With the body records present, the body write phase changes nothing but the twelve channel leaves. */
  lemma BodyGroupOnlyChannels(s: Fields, v: seq<byte>, d: Diagnostic, q: Path)
    requires |v| == 12 && q != [] && BodyRecordsExist(s) && OffBodyChannels(q)
    ensures Get(WriteGroup(s, BodyTint, ArgbWrites(BodyTint, v), d).root, q) == Get(s, q)
  {
    var ws := ArgbWrites(BodyTint, v);
    EnsureRecordsReach(s, BodyTint);
    forall i | 0 <= i < 12 ensures Diverge(ws[i].path, q) {
      assert ws[i].path == BodyTint + [Records[i / 4], Argb[i % 4]];
    }
    ApplyWritesFrame(s, ws, q);
  }

  /** With the body records present, SetBodyTint changes nothing but their twelve channel leaves, inside `Tintable` too. */
  lemma BodyTintOnlyChannels(s: Fields, t: string, q: Path)
    requires q != [] && BodyRecordsExist(s) && OffBodyChannels(q)
    ensures SetBodyTint(s, t).Done?
    ensures Get(SetBodyTint(s, t).root, q) == Get(s, q)
  {
    if ParseTint(t).Some? {
      BodyGroupOnlyChannels(s, BodyValues(ParseTint(t).value), UpdateFailed, q);
    }
  }

  // ----------------------------------------------------------------- Retint

  /** A successful read below head record 1 means the record was there already, so the chain created nothing. */
  lemma HeadReadNeedsRecord(s: Fields, x: string)
    requires Ensure(s, HeadRecord).Some? && ReadByte(Ensure(s, HeadRecord).value, HeadRecord + [x]).Some?
    ensures HasStruct(s, HeadRecord) && Ensure(s, HeadRecord) == Some(s)
  {
    var s1 := Ensure(s, HeadRecord).value;
    GetSnoc(s1, HeadRecord, x);
    if !HasStruct(s, HeadRecord) {
      EnsureCreatesEmpty(s, HeadRecord);
      assert false;
    }
    EnsureExisting(s, HeadRecord);
  }

  /** Channel ch of the colour HeadColour reads is the byte at channel ch of head record 1. */
  lemma HeadColourAt(s: Fields, ch: int)
    requires HeadColour(s).1.Some? && 0 <= ch < 3
    ensures |HeadColour(s).1.value| == 3
    ensures ReadByte(HeadColour(s).0, HeadRecord + [Rgb[ch]]) == Some(HeadColour(s).1.value[ch])
  {
    assert Rgb == ["r", "g", "b"];
    if ch == 0 {
      assert Rgb[ch] == "r";
    } else if ch == 1 {
      assert Rgb[ch] == "g";
    } else {
      assert Rgb[ch] == "b";
    }
  }

  /** Retint with nothing logged: every body record is head record 1's colour with alpha 0. */
  lemma RetintCopiesHeadColour(s: Fields, after: Fields)
    requires Retint(s) == Done(after, [])
    ensures HasStruct(s, HeadRecord)
    ensures forall ch | 0 <= ch < 3 :: ReadByte(s, HeadRecord + [Rgb[ch]]).Some?
    ensures forall k | 0 <= k < 3 :: ReadByte(after, BodyTint + [Records[k], "a"]) == Some(0)
    ensures forall k, ch | 0 <= k < 3 && 0 <= ch < 3 ::
      ReadByte(after, BodyTint + [Records[k], Rgb[ch]]) == ReadByte(s, HeadRecord + [Rgb[ch]])
    ensures after - {"Tintable"} == s - {"Tintable"}
  {
    var (s1, rgb) := HeadColour(s);
    HeadReadNeedsRecord(s, "r");
    assert s1 == s;
    var argb := [0] + rgb.value;
    BodyGroupReplicated(s, argb, RetintTargetUnavailable, after);
    BodyGroupOutside(s, Replicate(argb), RetintTargetUnavailable);
    forall ch | 0 <= ch < 3 ensures ReadByte(s, HeadRecord + [Rgb[ch]]) == Some(argb[ch + 1]) {
      HeadColourAt(s, ch);
    }
    assert Argb[0] == "a";
    forall k, ch | 0 <= k < 3 && 0 <= ch < 3
      ensures ReadByte(after, BodyTint + [Records[k], Rgb[ch]]) == Some(argb[ch + 1])
    {
      assert Argb[ch + 1] == Rgb[ch];
    }
  }

  /**
   * Retint, whatever happens, changes nothing outside `Tintable` and `Tint_Head`;
   * when head record 1 exists it leaves `Tint_Head` alone too.
   */
  lemma RetintOutside(s: Fields)
    ensures Retint(s).root - {"Tintable", "Tint_Head"} == s - {"Tintable", "Tint_Head"}
    ensures HasStruct(s, HeadRecord) ==> Retint(s).root - {"Tintable"} == s - {"Tintable"}
  {
    var (s1, rgb) := HeadColour(s);
    var after := Retint(s).root;
    if rgb.Some? {
      ArgbWritesStartAt(BodyTint, Replicate([0] + rgb.value));
    }
    forall key | key !in {"Tintable", "Tint_Head"} ensures Get(after, [key]) == Get(s, [key]) {
      if Ensure(s, HeadRecord).Some? {
        assert Diverge(HeadRecord, [key]) by { assert HeadRecord[0] != [key][0]; }
        EnsureFrame(s, HeadRecord, [key]);
      }
      if rgb.Some? {
        WriteGroupOutside(s1, BodyTint, ArgbWrites(BodyTint, Replicate([0] + rgb.value)), RetintTargetUnavailable, [key]);
      }
    }
    SameOutside(s, after, {"Tintable", "Tint_Head"});
    if HasStruct(s, HeadRecord) {
      EnsureExisting(s, HeadRecord);
      forall key | key !in {"Tintable"} ensures Get(after, [key]) == Get(s, [key]) {
        if rgb.Some? {
          WriteGroupOutside(s1, BodyTint, ArgbWrites(BodyTint, Replicate([0] + rgb.value)), RetintTargetUnavailable, [key]);
        }
      }
      SameOutside(s, after, {"Tintable"});
    }
  }

  /** Retint a second time changes nothing more and logs the same. */
  lemma RetintTwice(s: Fields)
    ensures Retint(Retint(s).root) == Retint(s)
  {
    var (s1, rgb) := HeadColour(s);
    if Ensure(s, HeadRecord).Some? {
      EnsureGet(s, HeadRecord);
      EnsureExisting(s1, HeadRecord);
    }
    if rgb.Some? {
      var ws := ArgbWrites(BodyTint, Replicate([0] + rgb.value));
      var t := WriteGroup(s1, BodyTint, ws, RetintTargetUnavailable).root;
      ArgbWritesStartAt(BodyTint, Replicate([0] + rgb.value));
      ArgbWritesIndependent(BodyTint, Replicate([0] + rgb.value));
      WriteGroupOutside(s1, BodyTint, ws, RetintTargetUnavailable, HeadRecord);
      WriteGroupOutside(s1, BodyTint, ws, RetintTargetUnavailable, HeadRecord + ["r"]);
      WriteGroupOutside(s1, BodyTint, ws, RetintTargetUnavailable, HeadRecord + ["g"]);
      WriteGroupOutside(s1, BodyTint, ws, RetintTargetUnavailable, HeadRecord + ["b"]);
      EnsureExisting(t, HeadRecord);
      assert HeadColour(t) == (t, rgb);
      WriteGroupTwice(s1, BodyTint, ws, RetintTargetUnavailable);
    }
  }

  /**
   * With head record 1 and the body records present, Retint changes nothing but
   * the twelve body channel leaves: no other field of `Tintable` or `Tint_Head`.
   */
  lemma RetintOnlyChannels(s: Fields, q: Path)
    requires q != [] && HasStruct(s, HeadRecord) && BodyRecordsExist(s) && OffBodyChannels(q)
    ensures Get(Retint(s).root, q) == Get(s, q)
  {
    EnsureExisting(s, HeadRecord);
    var (s1, rgb) := HeadColour(s);
    if rgb.Some? {
      BodyGroupOnlyChannels(s, Replicate([0] + rgb.value), RetintTargetUnavailable, q);
    }
  }

  // ---------------------------------------------------------- ResetBodyTint

  /** ResetBodyTint with nothing logged: every body record is head record 1's colour, alpha included. */
  lemma ResetBodyTintCopiesHead(s: Fields, after: Fields)
    requires ResetBodyTint(s) == Done(after, [])
    ensures HasStruct(s, HeadRecord)
    ensures forall k, ch | 0 <= k < 3 && 0 <= ch < 4 ::
      ReadByte(s, HeadRecord + [Argb[ch]]).Some? &&
      ReadByte(after, BodyTint + [Records[k], Argb[ch]]) == ReadByte(s, HeadRecord + [Argb[ch]])
    ensures after - {"Tintable"} == s - {"Tintable"}
  {
    HeadReadNeedsRecord(s, "a");
    var a, r := ReadByte(s, HeadRecord + ["a"]), ReadByte(s, HeadRecord + ["r"]);
    var g, b := ReadByte(s, HeadRecord + ["g"]), ReadByte(s, HeadRecord + ["b"]);
    var argb := [a.value, r.value, g.value, b.value];
    BodyGroupReplicated(s, argb, UpdateFailed, after);
    BodyGroupOutside(s, Replicate(argb), UpdateFailed);
    forall ch | 0 <= ch < 4 ensures ReadByte(s, HeadRecord + [Argb[ch]]) == Some(argb[ch]) {
      HeadChannelAt(s, argb, ch);
    }
  }

  /** Helper: channel ch of head record 1, when all four channels were read as argb. */
  lemma HeadChannelAt(s: Fields, argb: seq<byte>, ch: int)
    requires |argb| == 4 && 0 <= ch < 4
    requires ReadByte(s, HeadRecord + ["a"]) == Some(argb[0]) && ReadByte(s, HeadRecord + ["r"]) == Some(argb[1])
    requires ReadByte(s, HeadRecord + ["g"]) == Some(argb[2]) && ReadByte(s, HeadRecord + ["b"]) == Some(argb[3])
    ensures ReadByte(s, HeadRecord + [Argb[ch]]) == Some(argb[ch])
  {
    assert Argb == ["a", "r", "g", "b"];
    if ch == 0 {
      assert Argb[ch] == "a";
    } else if ch == 1 {
      assert Argb[ch] == "r";
    } else if ch == 2 {
      assert Argb[ch] == "g";
    } else {
      assert Argb[ch] == "b";
    }
  }

  /** With head record 1 and the body records present, ResetBodyTint changes nothing but the twelve body channel leaves. */
  lemma ResetBodyTintOnlyChannels(s: Fields, q: Path)
    requires q != [] && HasStruct(s, HeadRecord) && BodyRecordsExist(s) && OffBodyChannels(q)
    ensures Get(ResetBodyTint(s).root, q) == Get(s, q)
  {
    EnsureExisting(s, HeadRecord);
    var a, r := ReadByte(s, HeadRecord + ["a"]), ReadByte(s, HeadRecord + ["r"]);
    var g, b := ReadByte(s, HeadRecord + ["g"]), ReadByte(s, HeadRecord + ["b"]);
    if a.Some? && r.Some? && g.Some? && b.Some? {
      BodyGroupOnlyChannels(s, Replicate([a.value, r.value, g.value, b.value]), UpdateFailed, q);
    }
  }
}
