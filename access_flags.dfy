/**
 * The access-flag renderers of Utils: `isSet` and the class, field and
 * method keyword lists. Each renderer appends " keyword" to a builder for
 * every flag bit that is set, in a fixed order, and then drops the leading
 * space with substring(1), which throws when no bit was set.
 */
module AccessFlags {
  import opened Bytes
  import opened Text

  const ACC_PUBLIC: bv16 := 0x0001
  const ACC_PRIVATE: bv16 := 0x0002
  const ACC_PROTECTED: bv16 := 0x0004
  const ACC_STATIC: bv16 := 0x0008
  const ACC_FINAL: bv16 := 0x0010
  const ACC_SUPER: bv16 := 0x0020
  const ACC_SYNCHRONIZED: bv16 := 0x0020
  const ACC_VOLATILE: bv16 := 0x0040
  const ACC_BRIDGE: bv16 := 0x0040
  const ACC_TRANSIENT: bv16 := 0x0080
  const ACC_VARARGS: bv16 := 0x0080
  const ACC_NATIVE: bv16 := 0x0100
  const ACC_INTERFACE: bv16 := 0x0200
  const ACC_ABSTRACT: bv16 := 0x0400
  const ACC_STRICT: bv16 := 0x0800
  const ACC_SYNTHETIC: bv16 := 0x1000
  const ACC_ANNOTATION: bv16 := 0x2000
  const ACC_ENUM: bv16 := 0x4000
  const ACC_MODULE: bv16 := 0x8000

  /** isSet: every bit of the filter is set in the flags. */
  predicate IsSet(flag: bv16, filter: bv16)
  {
    flag & filter == filter
  }

  /** Bit k of x. */
  predicate Bit(x: bv16, k: nat)
    requires k < 16
  {
    (x >> k) & 1 == 1
  }

  /** The single-bit mask m of the filter is covered by the flags. */
  predicate Covers(flag: bv16, filter: bv16, m: bv16)
  {
    filter & m == 0 || flag & m != 0
  }

  lemma CoveredMasks(flag: bv16, filter: bv16)
    requires Covers(flag, filter, 0x1) && Covers(flag, filter, 0x2) && Covers(flag, filter, 0x4) && Covers(flag, filter, 0x8)
    requires Covers(flag, filter, 0x10) && Covers(flag, filter, 0x20) && Covers(flag, filter, 0x40) && Covers(flag, filter, 0x80)
    requires Covers(flag, filter, 0x100) && Covers(flag, filter, 0x200) && Covers(flag, filter, 0x400) && Covers(flag, filter, 0x800)
    requires Covers(flag, filter, 0x1000) && Covers(flag, filter, 0x2000) && Covers(flag, filter, 0x4000) && Covers(flag, filter, 0x8000)
    ensures IsSet(flag, filter)
  {
  }

  lemma BitCovers(flag: bv16, filter: bv16, k: nat, m: bv16)
    requires k < 16 && m == 1 << k
    requires Bit(filter, k) ==> Bit(flag, k)
    ensures Covers(flag, filter, m)
  {
  }

  /** isSet holds exactly when each bit of the filter is a bit of the
      flags. */
  lemma IsSetBits(flag: bv16, filter: bv16)
    ensures IsSet(flag, filter) <==> forall k: nat | k < 16 :: Bit(filter, k) ==> Bit(flag, k)
  {
    if forall k: nat | k < 16 :: Bit(filter, k) ==> Bit(flag, k) {
      BitCovers(flag, filter, 0, 0x1);
      BitCovers(flag, filter, 1, 0x2);
      BitCovers(flag, filter, 2, 0x4);
      BitCovers(flag, filter, 3, 0x8);
      BitCovers(flag, filter, 4, 0x10);
      BitCovers(flag, filter, 5, 0x20);
      BitCovers(flag, filter, 6, 0x40);
      BitCovers(flag, filter, 7, 0x80);
      BitCovers(flag, filter, 8, 0x100);
      BitCovers(flag, filter, 9, 0x200);
      BitCovers(flag, filter, 10, 0x400);
      BitCovers(flag, filter, 11, 0x800);
      BitCovers(flag, filter, 12, 0x1000);
      BitCovers(flag, filter, 13, 0x2000);
      BitCovers(flag, filter, 14, 0x4000);
      BitCovers(flag, filter, 15, 0x8000);
      CoveredMasks(flag, filter);
    }
  }

  /** The keyword tables, in the order the renderers test the bits. */
  const CLASS_FLAGS: seq<(bv16, string)> := [
    (ACC_PUBLIC, "public"), (ACC_FINAL, "final"), (ACC_SUPER, "super"),
    (ACC_INTERFACE, "interface"), (ACC_ABSTRACT, "abstract"), (ACC_SYNTHETIC, "synthetic"),
    (ACC_ANNOTATION, "annotation"), (ACC_ENUM, "enum"), (ACC_MODULE, "module")]

  const FIELD_FLAGS: seq<(bv16, string)> := [
    (ACC_PUBLIC, "public"), (ACC_PRIVATE, "private"), (ACC_PROTECTED, "protected"),
    (ACC_STATIC, "static"), (ACC_FINAL, "final"), (ACC_VOLATILE, "volatile"),
    (ACC_TRANSIENT, "transient"), (ACC_ABSTRACT, "abstract"), (ACC_SYNTHETIC, "synthetic"),
    (ACC_ENUM, "enum")]

  const METHOD_FLAGS: seq<(bv16, string)> := [
    (ACC_PUBLIC, "public"), (ACC_PRIVATE, "private"), (ACC_PROTECTED, "protected"),
    (ACC_STATIC, "static"), (ACC_FINAL, "final"), (ACC_SYNCHRONIZED, "synchronized"),
    (ACC_BRIDGE, "bridge"), (ACC_VARARGS, "varargs"), (ACC_NATIVE, "native"),
    (ACC_ABSTRACT, "abstract"), (ACC_STRICT, "strict"), (ACC_SYNTHETIC, "synthetic")]

  /** The keywords of the table whose bits are set in `flag`, in table
      order. */
  function FlagWords(flag: bv16, table: seq<(bv16, string)>): (r: seq<string>)
    ensures |r| <= |table|
    decreases |table|
  {
    if table == [] then []
    else (if IsSet(flag, table[0].0) then [table[0].1] else []) + FlagWords(flag, table[1..])
  }

  /** What a renderer returns: the set keywords separated by single spaces,
      or nothing when no keyword applies (substring(1) of the empty builder
      throws). */
  function Keywords(flag: bv16, table: seq<(bv16, string)>): Option<string>
  {
    var ws := FlagWords(flag, table);
    if ws == [] then None else Some(Join(ws, " "))
  }

  /** The builder contents: " " before each keyword. */
  function Spaced(ws: seq<string>): string
    decreases |ws|
  {
    if ws == [] then "" else " " + ws[0] + Spaced(ws[1..])
  }

  lemma {:induction false} SpacedJoin(ws: seq<string>)
    ensures ws == [] <==> |Spaced(ws)| == 0
    ensures ws != [] ==> Spaced(ws)[1..] == Join(ws, " ")
    decreases |ws|
  {
    if ws != [] && |ws| > 1 {
      SpacedJoin(ws[1..]);
      assert Spaced(ws)[1..] == ws[0] + Spaced(ws[1..]);
      assert Spaced(ws[1..]) == " " + Spaced(ws[1..])[1..];
    } else if |ws| == 1 {
      assert ws[1..] == [];
    }
  }

  /** The builder after the first k tests of a renderer: it holds the
      spaced keywords of the entries before k, so that appending those of
      the remaining entries gives the whole list. */
  predicate Built(flag: bv16, table: seq<(bv16, string)>, k: nat, sb: string)
    requires k <= |table|
  {
    sb + Spaced(FlagWords(flag, table[k..])) == Spaced(FlagWords(flag, table))
  }

  lemma Step(flag: bv16, table: seq<(bv16, string)>, k: nat, before: string, after: string)
    requires k < |table| && Built(flag, table, k, before)
    requires after == before + (if IsSet(flag, table[k].0) then " " + table[k].1 else "")
    ensures Built(flag, table, k + 1, after)
  {
    var rest := table[k..];
    assert rest[0] == table[k] && rest[1..] == table[k + 1..];
    var tail := FlagWords(flag, table[k + 1..]);
    if IsSet(flag, table[k].0) {
      var ws := [table[k].1] + tail;
      assert FlagWords(flag, rest) == ws;
      assert ws[0] == table[k].1 && ws[1..] == tail;
      assert Spaced(ws) == " " + table[k].1 + Spaced(tail);
    } else {
      assert FlagWords(flag, rest) == tail;
    }
  }

  /** The empty builder before the first test. */
  lemma Start(flag: bv16, table: seq<(bv16, string)>)
    ensures Built(flag, table, 0, "")
  {
    assert table[0..] == table;
  }

  /** One line `if (isSet(flag, bit)) sb.append(" word");` of a renderer,
      where (bit, word) is entry k of the renderer's table. */
  method AppendIfSet(sb: string, flag: bv16, bit: bv16, word: string, ghost table: seq<(bv16, string)>, ghost k: nat)
    returns (r: string)
    requires k < |table| && table[k] == (bit, word) && Built(flag, table, k, sb)
    ensures Built(flag, table, k + 1, r)
  {
    r := sb;
    if IsSet(flag, bit) {
      r := r + " " + word;
    }
    Step(flag, table, k, sb, r);
  }

  /** substring(1) of the finished builder: it fails on the empty builder
      and otherwise is the keyword list. */
  method Finish(sb: string, flag: bv16, ghost table: seq<(bv16, string)>) returns (r: Option<string>)
    requires Built(flag, table, |table|, sb)
    ensures r == Keywords(flag, table)
  {
    assert table[|table|..] == [];
    assert sb == Spaced(FlagWords(flag, table));
    SpacedJoin(FlagWords(flag, table));
    if |sb| == 0 {
      return None;
    }
    return Some(sb[1..]);
  }

  /** getClassFlags. */
  method GetClassFlags(flag: bv16) returns (r: Option<string>)
    ensures r == Keywords(flag, CLASS_FLAGS)
  {
    var sb := "";
    Start(flag, CLASS_FLAGS);
    sb := AppendIfSet(sb, flag, ACC_PUBLIC, "public", CLASS_FLAGS, 0);
    sb := AppendIfSet(sb, flag, ACC_FINAL, "final", CLASS_FLAGS, 1);
    sb := AppendIfSet(sb, flag, ACC_SUPER, "super", CLASS_FLAGS, 2);
    sb := AppendIfSet(sb, flag, ACC_INTERFACE, "interface", CLASS_FLAGS, 3);
    sb := AppendIfSet(sb, flag, ACC_ABSTRACT, "abstract", CLASS_FLAGS, 4);
    sb := AppendIfSet(sb, flag, ACC_SYNTHETIC, "synthetic", CLASS_FLAGS, 5);
    sb := AppendIfSet(sb, flag, ACC_ANNOTATION, "annotation", CLASS_FLAGS, 6);
    sb := AppendIfSet(sb, flag, ACC_ENUM, "enum", CLASS_FLAGS, 7);
    sb := AppendIfSet(sb, flag, ACC_MODULE, "module", CLASS_FLAGS, 8);
    r := Finish(sb, flag, CLASS_FLAGS);
  }

  /** getFieldFlags. */
  method GetFieldFlags(flag: bv16) returns (r: Option<string>)
    ensures r == Keywords(flag, FIELD_FLAGS)
  {
    var sb := "";
    Start(flag, FIELD_FLAGS);
    sb := AppendIfSet(sb, flag, ACC_PUBLIC, "public", FIELD_FLAGS, 0);
    sb := AppendIfSet(sb, flag, ACC_PRIVATE, "private", FIELD_FLAGS, 1);
    sb := AppendIfSet(sb, flag, ACC_PROTECTED, "protected", FIELD_FLAGS, 2);
    sb := AppendIfSet(sb, flag, ACC_STATIC, "static", FIELD_FLAGS, 3);
    sb := AppendIfSet(sb, flag, ACC_FINAL, "final", FIELD_FLAGS, 4);
    sb := AppendIfSet(sb, flag, ACC_VOLATILE, "volatile", FIELD_FLAGS, 5);
    sb := AppendIfSet(sb, flag, ACC_TRANSIENT, "transient", FIELD_FLAGS, 6);
    sb := AppendIfSet(sb, flag, ACC_ABSTRACT, "abstract", FIELD_FLAGS, 7);
    sb := AppendIfSet(sb, flag, ACC_SYNTHETIC, "synthetic", FIELD_FLAGS, 8);
    sb := AppendIfSet(sb, flag, ACC_ENUM, "enum", FIELD_FLAGS, 9);
    r := Finish(sb, flag, FIELD_FLAGS);
  }

  /** getMethodFlags. */
  method GetMethodFlags(flag: bv16) returns (r: Option<string>)
    ensures r == Keywords(flag, METHOD_FLAGS)
  {
    var sb := "";
    Start(flag, METHOD_FLAGS);
    sb := AppendIfSet(sb, flag, ACC_PUBLIC, "public", METHOD_FLAGS, 0);
    sb := AppendIfSet(sb, flag, ACC_PRIVATE, "private", METHOD_FLAGS, 1);
    sb := AppendIfSet(sb, flag, ACC_PROTECTED, "protected", METHOD_FLAGS, 2);
    sb := AppendIfSet(sb, flag, ACC_STATIC, "static", METHOD_FLAGS, 3);
    sb := AppendIfSet(sb, flag, ACC_FINAL, "final", METHOD_FLAGS, 4);
    sb := AppendIfSet(sb, flag, ACC_SYNCHRONIZED, "synchronized", METHOD_FLAGS, 5);
    sb := AppendIfSet(sb, flag, ACC_BRIDGE, "bridge", METHOD_FLAGS, 6);
    sb := AppendIfSet(sb, flag, ACC_VARARGS, "varargs", METHOD_FLAGS, 7);
    sb := AppendIfSet(sb, flag, ACC_NATIVE, "native", METHOD_FLAGS, 8);
    sb := AppendIfSet(sb, flag, ACC_ABSTRACT, "abstract", METHOD_FLAGS, 9);
    sb := AppendIfSet(sb, flag, ACC_STRICT, "strict", METHOD_FLAGS, 10);
    sb := AppendIfSet(sb, flag, ACC_SYNTHETIC, "synthetic", METHOD_FLAGS, 11);
    r := Finish(sb, flag, METHOD_FLAGS);
  }

  // ---------------------------------------------------------------------
  // Properties of the keyword lists

  /** A keyword is listed exactly when some entry of the table names it and
      has its bit set. */
  lemma {:induction false} FlagWordsExactly(flag: bv16, table: seq<(bv16, string)>, w: string)
    ensures w in FlagWords(flag, table) <==> exists k | 0 <= k < |table| :: table[k].1 == w && IsSet(flag, table[k].0)
    decreases |table|
  {
    if table != [] {
      FlagWordsExactly(flag, table[1..], w);
      if w in FlagWords(flag, table[1..]) {
        var k :| 1 <= k + 1 < |table| && table[1..][k].1 == w && IsSet(flag, table[1..][k].0);
        assert table[k + 1] == table[1..][k];
      }
      if exists k | 0 <= k < |table| :: table[k].1 == w && IsSet(flag, table[k].0) {
        var k :| 0 <= k < |table| && table[k].1 == w && IsSet(flag, table[k].0);
        if k > 0 {
          assert table[1..][k - 1] == table[k];
        }
      }
    }
  }

  /** Keywords come out in table order: a table entry listed before another
      keeps its place. */
  lemma {:induction false} FlagWordsOrdered(flag: bv16, table: seq<(bv16, string)>, i: nat, j: nat)
    requires i < j < |table|
    requires IsSet(flag, table[i].0) && IsSet(flag, table[j].0)
    ensures exists x, y | 0 <= x < y < |FlagWords(flag, table)| ::
              FlagWords(flag, table)[x] == table[i].1 && FlagWords(flag, table)[y] == table[j].1
    decreases |table|
  {
    var rest := FlagWords(flag, table[1..]);
    if i == 0 {
      FlagWordsExactly(flag, table[1..], table[j].1);
      assert table[1..][j - 1] == table[j];
      var y :| 0 <= y < |rest| && rest[y] == table[j].1;
      assert FlagWords(flag, table) == [table[0].1] + rest;
      assert FlagWords(flag, table)[0] == table[0].1;
      assert FlagWords(flag, table)[y + 1] == table[j].1;
      assert 0 < y + 1 < |FlagWords(flag, table)|;
    } else {
      assert table[1..][i - 1] == table[i] && table[1..][j - 1] == table[j];
      FlagWordsOrdered(flag, table[1..], i - 1, j - 1);
      var x, y :| 0 <= x < y < |rest| && rest[x] == table[i].1 && rest[y] == table[j].1;
      var pre := if IsSet(flag, table[0].0) then [table[0].1] else [];
      assert FlagWords(flag, table) == pre + rest;
      assert FlagWords(flag, table)[|pre| + x] == table[i].1;
      assert FlagWords(flag, table)[|pre| + y] == table[j].1;
    }
  }

  /** With none of the table's bits set there is no keyword, and the
      renderer fails. */
  lemma {:induction false} NoKeywords(flag: bv16, table: seq<(bv16, string)>)
    ensures FlagWords(flag, table) == [] <==> forall k | 0 <= k < |table| :: !IsSet(flag, table[k].0)
    decreases |table|
  {
    if table != [] {
      NoKeywords(flag, table[1..]);
      if forall k | 0 <= k < |table| :: !IsSet(flag, table[k].0) {
        assert forall k | 0 <= k < |table| - 1 :: table[1..][k] == table[k + 1];
      }
      if FlagWords(flag, table) == [] {
        forall k | 0 <= k < |table|
          ensures !IsSet(flag, table[k].0)
        {
          if k > 0 {
            assert table[1..][k - 1] == table[k];
          }
        }
      }
    }
  }

  /** A keyword that names one entry only is listed exactly when that
      entry's bit is set. */
  lemma KeywordListed(flag: bv16, table: seq<(bv16, string)>, k: nat)
    requires k < |table|
    requires forall j | 0 <= j < |table| && j != k :: table[j].1 != table[k].1
    ensures (table[k].1 in FlagWords(flag, table)) == IsSet(flag, table[k].0)
  {
    FlagWordsExactly(flag, table, table[k].1);
  }

  /** The renderers share bits: 0x0020 is "super" for a class and
      "synchronized" for a method. */
  lemma SharedBit20(flag: bv16)
    ensures ("super" in FlagWords(flag, CLASS_FLAGS)) == IsSet(flag, 0x0020)
    ensures ("synchronized" in FlagWords(flag, METHOD_FLAGS)) == IsSet(flag, 0x0020)
  {
    KeywordListed(flag, CLASS_FLAGS, 2);
    KeywordListed(flag, METHOD_FLAGS, 5);
  }

  /** 0x0040 is "volatile" for a field and "bridge" for a method. */
  lemma SharedBit40(flag: bv16)
    ensures ("volatile" in FlagWords(flag, FIELD_FLAGS)) == IsSet(flag, 0x0040)
    ensures ("bridge" in FlagWords(flag, METHOD_FLAGS)) == IsSet(flag, 0x0040)
  {
    assert "volatile"[0] != "abstract"[0];
    KeywordListed(flag, FIELD_FLAGS, 5);
    KeywordListed(flag, METHOD_FLAGS, 6);
  }

  /** 0x0080 is "transient" for a field and "varargs" for a method. */
  lemma SharedBit80(flag: bv16)
    ensures ("transient" in FlagWords(flag, FIELD_FLAGS)) == IsSet(flag, 0x0080)
    ensures ("varargs" in FlagWords(flag, METHOD_FLAGS)) == IsSet(flag, 0x0080)
  {
    assert "transient"[0] != "protected"[0] && "transient"[0] != "synthetic"[0];
    KeywordListed(flag, FIELD_FLAGS, 6);
    KeywordListed(flag, METHOD_FLAGS, 7);
  }
}
