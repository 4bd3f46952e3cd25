/**
 * The in-memory GFF tree the commands edit, and the navigation primitives of
 * the GFF library that the commands use.
 *
 * The library's own code is not part of this model; each primitive here is the
 * contract the commands rely on:
 *   - `struct[key]` fails when the struct has no field labelled key;
 *   - a typed accessor (`ValueByte`, read or written) fails on a field of another type;
 *   - `GetStructSafe(key)` returns the existing struct child, creates and inserts an
 *     empty struct when the key is absent, and fails when the key holds a field that
 *     is not a struct.
 */
module Gff {
  import opened Wrappers
  import opened Codec

  /** A GFF field. Types other than byte, list and struct are opaque here. */
  datatype Field =
    | Byte(value: byte)
    | List(items: seq<map<string, Field>>)
    | Struct(fields: map<string, Field>)
    | Other

  /** A GFF struct: its fields by label (labels are unique within a struct). */
  type Fields = map<string, Field>

  /** A chain of struct labels, read from the top-level struct down. */
  type Path = seq<string>

  /** The field reached by following p from s; every label before the last must name a struct. */
  function Get(s: Fields, p: Path): Option<Field>
    requires p != []
    decreases |p|
  {
    if p[0] !in s then None
    else if |p| == 1 then Some(s[p[0]])
    else match s[p[0]]
      case Struct(child) => Get(child, p[1..])
      case _ => None
  }

  /** p leads to a struct. */
  predicate HasStruct(s: Fields, p: Path)
    requires p != []
  {
    Get(s, p).Some? && Get(s, p).value.Struct?
  }

  /** Reading `ValueByte` of the field at p. */
  function ReadByte(s: Fields, p: Path): Option<byte>
    requires p != []
  {
    match Get(s, p)
    case Some(Byte(b)) => Some(b)
    case _ => None
  }

  /** s with the existing field at p replaced by v; fails when p leads nowhere. */
  function Put(s: Fields, p: Path, v: Field): Option<Fields>
    requires p != []
    decreases |p|
  {
    if p[0] !in s then None
    else if |p| == 1 then Some(s[p[0] := v])
    else match s[p[0]]
      case Struct(child) =>
        (match Put(child, p[1..], v)
         case None => None
         case Some(child') => Some(s[p[0] := Struct(child')]))
      case _ => None
  }

  /** Assigning `ValueByte = b` to the field at p; fails unless that field exists and is a byte. */
  function SetByte(s: Fields, p: Path, b: byte): Option<Fields>
    requires p != []
  {
    if ReadByte(s, p).Some? then Put(s, p, Byte(b)) else None
  }

  /**
   * The chain `GetStructSafe(p[0]).GetStructSafe(p[1])...`: every label that is
   * absent gets a fresh empty struct; a label that holds a non-struct field fails.
   */
  function Ensure(s: Fields, p: Path): Option<Fields>
    decreases |p|
  {
    if p == [] then Some(s)
    else match (if p[0] in s then s[p[0]] else Struct(map[]))
      case Struct(child) =>
        (match Ensure(child, p[1..])
         case None => None
         case Some(child') => Some(s[p[0] := Struct(child')]))
      case _ => None
  }

  /** Neither path is a prefix of the other: they part at some label. */
  ghost predicate Diverge(p: Path, q: Path) {
    exists i :: 0 <= i < |p| && i < |q| && p[i] != q[i]
  }

  lemma DivergeTail(p: Path, q: Path)
    requires |p| > 1 && |q| > 1 && p[0] == q[0] && Diverge(p, q)
    ensures Diverge(p[1..], q[1..])
  {
    var i :| 0 <= i < |p| && i < |q| && p[i] != q[i];
    assert p[1..][i - 1] != q[1..][i - 1];
  }

  /** Two leaves of one parent, or leaves of two sibling records, part. */
  lemma SiblingsDiverge(base: Path, x: string, y: string, x': string, y': string)
    requires x != x' || y != y'
    ensures Diverge(base + [x, y], base + [x', y'])
  {
    if x != x' {
      assert (base + [x, y])[|base|] != (base + [x', y'])[|base|];
    } else {
      assert (base + [x, y])[|base| + 1] != (base + [x', y'])[|base| + 1];
    }
  }

  /** Put succeeds exactly where Get finds a field, and then the field reads back. */
  lemma {:induction false} PutGet(s: Fields, p: Path, v: Field)
    requires p != []
    ensures Put(s, p, v).Some? <==> Get(s, p).Some?
    ensures Put(s, p, v).Some? ==> Get(Put(s, p, v).value, p) == Some(v)
    decreases |p|
  {
    if p[0] in s && |p| > 1 && s[p[0]].Struct? {
      PutGet(s[p[0]].fields, p[1..], v);
    }
  }

  /** Put changes nothing that lies off its path. */
  lemma {:induction false} PutFrame(s: Fields, p: Path, v: Field, q: Path)
    requires p != [] && q != [] && Put(s, p, v).Some? && Diverge(p, q)
    ensures Get(Put(s, p, v).value, q) == Get(s, q)
    decreases |p|
  {
    if p[0] == q[0] {
      var i :| 0 <= i < |p| && i < |q| && p[i] != q[i];
      DivergeTail(p, q);
      PutFrame(s[p[0]].fields, p[1..], v, q[1..]);
    }
  }

  /** Writing the value a field already holds leaves the tree as it was. */
  lemma {:induction false} PutSame(s: Fields, p: Path, v: Field)
    requires p != [] && Get(s, p) == Some(v)
    ensures Put(s, p, v) == Some(s)
    decreases |p|
  {
    if |p| == 1 {
      assert s[p[0] := v] == s;
    } else {
      var child := s[p[0]].fields;
      PutSame(child, p[1..], v);
      assert s[p[0] := Struct(child)] == s;
    }
  }

  lemma SetByteGet(s: Fields, p: Path, b: byte)
    requires p != []
    ensures SetByte(s, p, b).Some? <==> ReadByte(s, p).Some?
    ensures SetByte(s, p, b).Some? ==> ReadByte(SetByte(s, p, b).value, p) == Some(b)
  {
    PutGet(s, p, Byte(b));
  }

  lemma SetByteFrame(s: Fields, p: Path, b: byte, q: Path)
    requires p != [] && q != [] && SetByte(s, p, b).Some? && Diverge(p, q)
    ensures Get(SetByte(s, p, b).value, q) == Get(s, q)
  {
    PutFrame(s, p, Byte(b), q);
  }

  lemma SetByteSame(s: Fields, p: Path, b: byte)
    requires p != [] && ReadByte(s, p) == Some(b)
    ensures SetByte(s, p, b) == Some(s)
  {
    PutSame(s, p, Byte(b));
  }

  /** A byte write leaves every struct of the tree a struct. */
  lemma {:induction false} SetByteKeepsStructs(s: Fields, p: Path, b: byte, q: Path)
    requires p != [] && q != [] && SetByte(s, p, b).Some? && HasStruct(s, q)
    ensures HasStruct(SetByte(s, p, b).value, q)
    decreases |p|
  {
    var r := SetByte(s, p, b).value;
    if p[0] == q[0] && |p| > 1 && |q| > 1 {
      var child := s[p[0]].fields;
      assert ReadByte(child, p[1..]) == ReadByte(s, p);
      SetByteKeepsStructs(child, p[1..], b, q[1..]);
    }
  }

  /** After a successful GetStructSafe chain, p leads to a struct. */
  lemma {:induction false} EnsureGet(s: Fields, p: Path)
    requires p != [] && Ensure(s, p).Some?
    ensures HasStruct(Ensure(s, p).value, p)
    decreases |p|
  {
    if |p| > 1 {
      var child := if p[0] in s then s[p[0]].fields else map[];
      EnsureGet(child, p[1..]);
    }
  }

  /** A GetStructSafe chain over structs that all exist creates nothing. */
  lemma {:induction false} EnsureExisting(s: Fields, p: Path)
    requires p != [] && HasStruct(s, p)
    ensures Ensure(s, p) == Some(s)
    decreases |p|
  {
    var child := s[p[0]].fields;
    if |p| > 1 {
      EnsureExisting(child, p[1..]);
    }
    assert s[p[0] := Struct(child)] == s;
  }

  /** A GetStructSafe chain changes nothing that lies off its path. */
  lemma {:induction false} EnsureFrame(s: Fields, p: Path, q: Path)
    requires p != [] && q != [] && Ensure(s, p).Some? && Diverge(p, q)
    ensures Get(Ensure(s, p).value, q) == Get(s, q)
    decreases |p|
  {
    if p[0] == q[0] {
      DivergeTail(p, q);
      var child := if p[0] in s then s[p[0]].fields else map[];
      EnsureFrame(child, p[1..], q[1..]);
      if p[0] !in s {
        assert Get(child, q[1..]).None?;
      }
    }
  }

  /** A GetStructSafe chain leaves every existing struct a struct. */
  lemma {:induction false} EnsureKeepsStructs(s: Fields, p: Path, q: Path)
    requires q != [] && Ensure(s, p).Some? && HasStruct(s, q)
    ensures HasStruct(Ensure(s, p).value, q)
    decreases |p|
  {
    if p != [] && p[0] == q[0] && |q| > 1 {
      EnsureKeepsStructs(s[p[0]].fields, p[1..], q[1..]);
    }
  }

  /** GetStructSafe fails exactly when its chain runs into a field that is not a struct. */
  lemma {:induction false} EnsureFails(s: Fields, p: Path)
    ensures Ensure(s, p).None? <==>
      exists k :: 0 < k <= |p| && Get(s, p[..k]).Some? && !Get(s, p[..k]).value.Struct?
    decreases |p|
  {
    if p != [] {
      var tail := p[1..];
      if p[0] in s && s[p[0]].Struct? {
        var child := s[p[0]].fields;
        EnsureFails(child, tail);
        forall k | 1 < k <= |p| ensures Get(s, p[..k]) == Get(child, tail[..k - 1]) {
          assert p[..k][1..] == tail[..k - 1];
        }
        if Ensure(s, p).None? {
          var k :| 0 < k <= |tail| && Get(child, tail[..k]).Some? && !Get(child, tail[..k]).value.Struct?;
          assert Get(s, p[..k + 1]) == Get(child, tail[..k]);
        }
      } else if p[0] in s {
        assert Get(s, p[..1]) == Some(s[p[0]]);
      } else {
        assert Ensure(map[], tail).Some? by { EnsureFresh(tail); }
        forall k | 0 < k <= |p| ensures Get(s, p[..k]).None? { }
      }
    }
  }

  /** Below a fresh empty struct every GetStructSafe chain succeeds. */
  lemma {:induction false} EnsureFresh(p: Path)
    ensures Ensure(map[], p).Some?
    decreases |p|
  {
    if p != [] {
      EnsureFresh(p[1..]);
    }
  }

  /** A GetStructSafe chain that had to create its last struct leaves it empty. */
  lemma {:induction false} EnsureCreatesEmpty(s: Fields, p: Path)
    requires p != [] && Ensure(s, p).Some? && !HasStruct(s, p)
    ensures Get(Ensure(s, p).value, p) == Some(Struct(map[]))
    decreases |p|
  {
    if |p| > 1 {
      var child := if p[0] in s then s[p[0]].fields else map[];
      if p[0] in s {
        assert !HasStruct(child, p[1..]);
      } else {
        EnsureFresh(p[1..]);
        assert !HasStruct(child, p[1..]);
      }
      EnsureCreatesEmpty(child, p[1..]);
    }
  }

  /** Following one more label: the field labelled x inside the struct at p. */
  lemma {:induction false} GetSnoc(s: Fields, p: Path, x: string)
    requires p != []
    ensures Get(s, p + [x]) ==
      match Get(s, p)
      case Some(Struct(f)) => if x in f then Some(f[x]) else None
      case _ => None
    decreases |p|
  {
    assert (p + [x])[0] == p[0];
    if p[0] in s && s[p[0]].Struct? {
      if |p| == 1 {
        assert (p + [x])[1..] == [x];
      } else {
        assert (p + [x])[1..] == p[1..] + [x];
        GetSnoc(s[p[0]].fields, p[1..], x);
      }
    }
  }

  /** One `ValueByte = value` assignment at path. */
  datatype Write = Write(path: Path, value: byte)

  predicate WellFormed(ws: seq<Write>) {
    forall i | 0 <= i < |ws| :: ws[i].path != []
  }

  /** No write lies on the path of another. */
  ghost predicate Independent(ws: seq<Write>) {
    forall i, j | 0 <= i < j < |ws| :: Diverge(ws[i].path, ws[j].path)
  }

  /**
   * A run of assignments inside one `try`: they happen in order, and the first
   * that fails ends the run, leaving the earlier ones in place. The flag says
   * whether every assignment happened.
   */
  function ApplyWrites(s: Fields, ws: seq<Write>): (Fields, bool)
    requires WellFormed(ws)
    decreases |ws|
  {
    if ws == [] then (s, true)
    else match SetByte(s, ws[0].path, ws[0].value)
      case None => (s, false)
      case Some(s') => ApplyWrites(s', ws[1..])
  }

  /** Writes change nothing off their paths. */
  lemma {:induction false} ApplyWritesFrame(s: Fields, ws: seq<Write>, q: Path)
    requires WellFormed(ws) && q != []
    requires forall i | 0 <= i < |ws| :: Diverge(ws[i].path, q)
    ensures Get(ApplyWrites(s, ws).0, q) == Get(s, q)
    decreases |ws|
  {
    if ws != [] {
      var w := ws[0];
      if SetByte(s, w.path, w.value).Some? {
        SetByteFrame(s, w.path, w.value, q);
        assert forall i | 0 <= i < |ws[1..]| :: Diverge(ws[1..][i].path, q) by {
          forall i | 0 <= i < |ws[1..]| ensures Diverge(ws[1..][i].path, q) {
            assert ws[1..][i] == ws[i + 1];
          }
        }
        ApplyWritesFrame(SetByte(s, w.path, w.value).value, ws[1..], q);
      }
    }
  }

  lemma {:induction false} ApplyWritesKeepsStructs(s: Fields, ws: seq<Write>, q: Path)
    requires WellFormed(ws) && q != [] && HasStruct(s, q)
    ensures HasStruct(ApplyWrites(s, ws).0, q)
    decreases |ws|
  {
    if ws != [] {
      var w := ws[0];
      if SetByte(s, w.path, w.value).Some? {
        SetByteKeepsStructs(s, w.path, w.value, q);
        ApplyWritesKeepsStructs(SetByte(s, w.path, w.value).value, ws[1..], q);
      }
    }
  }

  lemma IndependentTail(ws: seq<Write>)
    requires ws != [] && Independent(ws)
    ensures Independent(ws[1..])
    ensures forall i | 0 <= i < |ws[1..]| :: Diverge(ws[1..][i].path, ws[0].path)
  {
    forall i, j | 0 <= i < j < |ws[1..]| ensures Diverge(ws[1..][i].path, ws[1..][j].path) {
      assert ws[1..][i] == ws[i + 1] && ws[1..][j] == ws[j + 1];
    }
    forall i | 0 <= i < |ws[1..]| ensures Diverge(ws[1..][i].path, ws[0].path) {
      assert ws[1..][i] == ws[i + 1];
      var p, q := ws[0].path, ws[i + 1].path;
      assert Diverge(p, q);
      var k :| 0 <= k < |p| && k < |q| && p[k] != q[k];
      assert q[k] != p[k];
    }
  }

  /** When every write of an independent run happened, every written leaf holds its value. */
  lemma {:induction false} ApplyWritesDone(s: Fields, ws: seq<Write>, i: nat)
    requires WellFormed(ws) && Independent(ws) && ApplyWrites(s, ws).1 && i < |ws|
    ensures ReadByte(ApplyWrites(s, ws).0, ws[i].path) == Some(ws[i].value)
    decreases |ws|
  {
    var w := ws[0];
    var s' := SetByte(s, w.path, w.value).value;
    IndependentTail(ws);
    if i == 0 {
      SetByteGet(s, w.path, w.value);
      ApplyWritesFrame(s', ws[1..], w.path);
    } else {
      ApplyWritesDone(s', ws[1..], i - 1);
      assert ws[1..][i - 1] == ws[i];
    }
  }

  /** A run that fails stops at its first failing write; the ones before it stay done. */
  lemma {:induction false} ApplyWritesStopsAtFailure(s: Fields, ws: seq<Write>)
    requires WellFormed(ws) && !ApplyWrites(s, ws).1
    ensures exists k | 0 <= k < |ws| ::
      ApplyWrites(s, ws[..k]) == (ApplyWrites(s, ws).0, true) &&
      SetByte(ApplyWrites(s, ws).0, ws[k].path, ws[k].value).None?
    decreases |ws|
  {
    var w := ws[0];
    match SetByte(s, w.path, w.value)
    case None =>
      assert ws[..0] == [];
      assert ApplyWrites(s, ws[..0]) == (s, true);
    case Some(s') =>
      ApplyWritesStopsAtFailure(s', ws[1..]);
      var k :| 0 <= k < |ws[1..]| &&
        ApplyWrites(s', ws[1..][..k]) == (ApplyWrites(s', ws[1..]).0, true) &&
        SetByte(ApplyWrites(s', ws[1..]).0, ws[1..][k].path, ws[1..][k].value).None?;
      assert ws[..k + 1][1..] == ws[1..][..k];
      assert ApplyWrites(s, ws[..k + 1]) == ApplyWrites(s', ws[1..][..k]);
  }

  /** Repeating an independent run of writes changes nothing more. */
  lemma {:induction false} ApplyWritesTwice(s: Fields, ws: seq<Write>)
    requires WellFormed(ws) && Independent(ws)
    ensures ApplyWrites(ApplyWrites(s, ws).0, ws) == ApplyWrites(s, ws)
    decreases |ws|
  {
    if ws != [] {
      var w := ws[0];
      match SetByte(s, w.path, w.value)
      case None =>
      case Some(s') =>
        var t := ApplyWrites(s', ws[1..]).0;
        IndependentTail(ws);
        SetByteGet(s, w.path, w.value);
        ApplyWritesFrame(s', ws[1..], w.path);
        assert ReadByte(t, w.path) == Some(w.value);
        SetByteSame(t, w.path, w.value);
        ApplyWritesTwice(s', ws[1..]);
    }
  }
}
