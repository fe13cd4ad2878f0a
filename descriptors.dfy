/**
 * The descriptor renderers of Utils: `expand`, which turns a sequence of
 * field descriptors into Java source types separated by ", ", and
 * `getSignature`, which renders a field descriptor or a method descriptor
 * together with the member's name. Every exception the Java code can raise
 * (an invalid character, an 'L' with no ';' after it, an empty descriptor,
 * a '(' with no ')') is a `None` here.
 */
module Descriptors {
  import opened Bytes
  import opened Text

  /** String.indexOf(c, from): the first position at or after `from` that
      holds c. */
  function IndexOf(s: string, c: char, from: nat): (r: Option<nat>)
    ensures r.Some? ==> from <= r.value < |s| && s[r.value] == c &&
                        forall j | from <= j < r.value :: s[j] != c
    ensures r.None? ==> forall j | from <= j < |s| :: s[j] != c
    decreases |s| - from
  {
    if from >= |s| then None
    else if s[from] == c then Some(from)
    else IndexOf(s, c, from + 1)
  }

  /** String.replace('/', '.'). */
  function Dotted(s: string): (r: string)
    ensures |r| == |s|
  {
    seq(|s|, j requires 0 <= j < |s| => if s[j] == '/' then '.' else s[j])
  }

  /** The Java name of a base-type character, or None for any other
      character. */
  function BaseName(c: char): Option<string>
  {
    match c
    case 'B' => Some("byte")
    case 'C' => Some("char")
    case 'D' => Some("double")
    case 'F' => Some("float")
    case 'I' => Some("int")
    case 'J' => Some("long")
    case 'S' => Some("short")
    case 'Z' => Some("boolean")
    case 'V' => Some("void")
    case _ => None
  }

  /** items ++ the items of o, failing when o failed. */
  function Prefixed(items: seq<string>, o: Option<seq<string>>): Option<seq<string>>
  {
    match o
    case None => None
    case Some(rest) => Some(items + rest)
  }

  lemma PrefixedConcat(xs: seq<string>, ys: seq<string>, o: Option<seq<string>>)
    ensures Prefixed(xs, Prefixed(ys, o)) == Prefixed(xs + ys, o)
    ensures Prefixed([], o) == o
  {
    match o
    case None =>
    case Some(rest) =>
      assert xs + (ys + rest) == xs + ys + rest;
      assert [] + rest == rest;
  }

  /** The items `expand` adds from position i on, when the brackets seen
      since the last item are `pending`: '[' adds "[]" to the pending
      brackets, an 'L' takes the class name up to the next ';', a base-type
      character its name, and each type that is not '[' becomes one item
      followed by the pending brackets. Brackets still pending at the end
      are dropped. */
  function ExpandFrom(d: string, i: nat, pending: string): Option<seq<string>>
    decreases |d| - i
  {
    if i >= |d| then Some([])
    else if d[i] == '[' then ExpandFrom(d, i + 1, pending + "[]")
    else if d[i] == 'L' then
      match IndexOf(d, ';', i + 1)
      case None => None
      case Some(k) => Prefixed([Dotted(d[i + 1..k]) + pending], ExpandFrom(d, k + 1, ""))
    else
      match BaseName(d[i])
      case None => None
      case Some(name) => Prefixed([name + pending], ExpandFrom(d, i + 1, ""))
  }

  /** What `expand` returns: the items joined with ", ". */
  function Expansion(d: string): Option<string>
  {
    match ExpandFrom(d, 0, "")
    case None => None
    case Some(items) => Some(Join(items, ", "))
  }

  /** expand, with its list of items and pending brackets. */
  method Expand(d: string) returns (r: Option<string>)
    ensures r == Expansion(d)
  {
    var list: seq<string> := [];
    var pending := "";
    var i: nat := 0;
    PrefixedConcat([], [], ExpandFrom(d, 0, ""));
    while i < |d|
      invariant i <= |d| + 1
      invariant ExpandFrom(d, 0, "") == Prefixed(list, ExpandFrom(d, i, pending))
      decreases |d| - i
    {
      var ch := d[i];
      if ch == '[' {
        pending := pending + "[]";
        i := i + 1;
      } else {
        var param: string;
        if ch == 'L' {
          var index := IndexOf(d, ';', i + 1);
          if index.None? {
            return None;
          }
          param := Dotted(d[i + 1..index.value]);
          i := index.value + 1;
        } else {
          var name := BaseName(ch);
          if name.None? {
            return None;
          }
          param := name.value;
          i := i + 1;
        }
        PrefixedConcat(list, [param + pending], ExpandFrom(d, i, ""));
        list := list + [param + pending];
        pending := "";
      }
    }
    assert list + [] == list;
    return Some(Join(list, ", "));
  }

  /** getSignature: a field descriptor renders as its type and the name; a
      method descriptor is split at its first ')' into the parameters and
      the return type. */
  function GetSignature(name: string, d: string): (r: Option<string>)
    ensures |d| == 0 ==> r == None
    ensures |d| > 0 && d[0] != '(' ==>
              (r.Some? <==> Expansion(d).Some?) &&
              (r.Some? ==> r.value == Expansion(d).value + " " + name)
    ensures |d| > 0 && d[0] == '(' && (forall j | 0 <= j < |d| :: d[j] != ')') ==> r == None
  {
    if |d| == 0 then None
    else if d[0] != '(' then
      match Expansion(d)
      case None => None
      case Some(t) => Some(t + " " + name)
    else
      match IndexOf(d, ')', 0)
      case None => None
      case Some(k) =>
        match (Expansion(d[1..k]), Expansion(d[k + 1..]))
        case (Some(parameters), Some(returnValue)) => Some(returnValue + " " + name + "(" + parameters + ")")
        case _ => None
  }

  // ---------------------------------------------------------------------
  // Field types: the reference the expansion is checked against

  /** A field type of the class-file format: a base type, a class named
      with '/' separators, or an array of a component type. */
  datatype FieldType = Base(code: char) | Object(className: string) | Array(component: FieldType)

  predicate WellFormed(t: FieldType)
  {
    match t
    case Base(c) => BaseName(c).Some?
    case Object(n) => forall j | 0 <= j < |n| :: n[j] != ';'
    case Array(c) => WellFormed(c)
  }

  /** The descriptor of a field type. */
  function Encode(t: FieldType): (r: string)
    ensures |r| > 0
  {
    match t
    case Base(c) => [c]
    case Object(n) => "L" + n + ";"
    case Array(c) => "[" + Encode(c)
  }

  function EncodeAll(ts: seq<FieldType>): string
    decreases |ts|
  {
    if ts == [] then "" else Encode(ts[0]) + EncodeAll(ts[1..])
  }

  /** The Java source spelling of a field type. */
  function Render(t: FieldType): string
  {
    match t
    case Base(c) => if BaseName(c).Some? then BaseName(c).value else ""
    case Object(n) => Dotted(n)
    case Array(c) => Render(c) + "[]"
  }

  function RenderAll(ts: seq<FieldType>): (r: seq<string>)
    ensures |r| == |ts|
    decreases |ts|
  {
    if ts == [] then [] else [Render(ts[0])] + RenderAll(ts[1..])
  }

  /** The element type's spelling and the brackets after it. */
  function Leaf(t: FieldType): string
  {
    match t
    case Array(c) => Leaf(c)
    case _ => Render(t)
  }

  function Brackets(t: FieldType): string
  {
    match t
    case Array(c) => "[]" + Brackets(c)
    case _ => ""
  }

  lemma {:induction false} BracketsCommute(t: FieldType)
    ensures "[]" + Brackets(t) == Brackets(t) + "[]"
  {
    if t.Array? {
      BracketsCommute(t.component);
    }
  }

  lemma {:induction false} RenderSplit(t: FieldType)
    ensures Render(t) == Leaf(t) + Brackets(t)
  {
    if t.Array? {
      RenderSplit(t.component);
      BracketsCommute(t.component);
    }
  }

  /** IndexOf finds the first occurrence. */
  lemma IndexOfFirst(s: string, c: char, from: nat, k: nat)
    requires from <= k < |s| && s[k] == c
    requires forall j | from <= j < k :: s[j] != c
    ensures IndexOf(s, c, from) == Some(k)
  {
  }

  /** Expanding the descriptor of one well-formed type, wherever it sits
      in the input, yields its item followed by what comes after it. */
  lemma {:induction false} ExpandOne(d: string, i: nat, t: FieldType, pending: string)
    requires WellFormed(t)
    requires i + |Encode(t)| <= |d| && d[i..i + |Encode(t)|] == Encode(t)
    ensures ExpandFrom(d, i, pending) ==
              Prefixed([Leaf(t) + pending + Brackets(t)], ExpandFrom(d, i + |Encode(t)|, ""))
    decreases t
  {
    var e := Encode(t);
    assert d[i] == e[0];
    match t
    case Base(c) =>
      assert Leaf(t) + pending + Brackets(t) == Render(t) + pending;
    case Object(n) =>
      ExpandObject(d, i, n, pending);
      assert Leaf(t) + pending + Brackets(t) == Dotted(n) + pending;
    case Array(c) =>
      assert d[i + 1..i + 1 + |Encode(c)|] == e[1..];
      ExpandOne(d, i + 1, c, pending + "[]");
      assert Leaf(c) + (pending + "[]") + Brackets(c) == Leaf(t) + pending + Brackets(t);
  }

  /** A class name `L<n>;` expands to the dotted name with the pending
      brackets. */
  lemma ExpandObject(d: string, i: nat, n: string, pending: string)
    requires WellFormed(Object(n))
    requires i + |Encode(Object(n))| <= |d| && d[i..i + |Encode(Object(n))|] == Encode(Object(n))
    ensures ExpandFrom(d, i, pending) == Prefixed([Dotted(n) + pending], ExpandFrom(d, i + |Encode(Object(n))|, ""))
  {
    var e := Encode(Object(n));
    var k := i + 1 + |n|;
    assert d[i] == e[0];
    assert d[k] == e[|e| - 1];
    forall j | i + 1 <= j < k
      ensures d[j] != ';'
    {
      assert d[j] == e[j - i] == n[j - i - 1];
    }
    IndexOfFirst(d, ';', i + 1, k);
    forall j | 0 <= j < |n|
      ensures d[i + 1 + j] == n[j]
    {
      assert d[i + 1 + j] == e[1 + j];
    }
    assert d[i + 1..k] == n;
  }

  /** Expanding the descriptors of a sequence of well-formed types yields
      their renderings, in order, followed by what comes after them. */
  lemma {:induction false} ExpandMany(d: string, i: nat, ts: seq<FieldType>)
    requires forall k | 0 <= k < |ts| :: WellFormed(ts[k])
    requires i + |EncodeAll(ts)| <= |d| && d[i..i + |EncodeAll(ts)|] == EncodeAll(ts)
    ensures ExpandFrom(d, i, "") == Prefixed(RenderAll(ts), ExpandFrom(d, i + |EncodeAll(ts)|, ""))
    decreases |ts|
  {
    if ts == [] {
      PrefixedConcat([], [], ExpandFrom(d, i, ""));
    } else {
      var e := Encode(ts[0]);
      var tail := EncodeAll(ts[1..]);
      var j := i + |e|;
      SliceSplit(d, i, e, tail);
      ExpandOne(d, i, ts[0], "");
      RenderSplit(ts[0]);
      assert Leaf(ts[0]) + "" + Brackets(ts[0]) == Render(ts[0]);
      ExpandMany(d, j, ts[1..]);
      PrefixedConcat([Render(ts[0])], RenderAll(ts[1..]), ExpandFrom(d, j + |tail|, ""));
    }
  }

  lemma SliceSplit(d: string, i: nat, a: string, b: string)
    requires i + |a + b| <= |d| && d[i..i + |a + b|] == a + b
    ensures d[i..i + |a|] == a && d[i + |a|..i + |a| + |b|] == b
  {
    forall k | 0 <= k < |a|
      ensures d[i + k] == a[k]
    {
      assert d[i + k] == d[i..i + |a + b|][k] == (a + b)[k];
    }
    forall k | 0 <= k < |b|
      ensures d[i + |a| + k] == b[k]
    {
      assert d[i + |a| + k] == d[i..i + |a + b|][|a| + k] == (a + b)[|a| + k];
    }
  }

  /** expand reads back the descriptors of well-formed types as their Java
      spellings separated by ", ". */
  lemma ExpandEncoded(ts: seq<FieldType>)
    requires forall k | 0 <= k < |ts| :: WellFormed(ts[k])
    ensures Expansion(EncodeAll(ts)) == Some(Join(RenderAll(ts), ", "))
  {
    var d := EncodeAll(ts);
    assert d[0..|d|] == d;
    ExpandMany(d, 0, ts);
    assert RenderAll(ts) + [] == RenderAll(ts);
  }

  /** Brackets with no type after them are dropped. */
  lemma TrailingBracketDropped(ts: seq<FieldType>)
    requires forall k | 0 <= k < |ts| :: WellFormed(ts[k])
    ensures Expansion(EncodeAll(ts) + "[") == Expansion(EncodeAll(ts))
  {
    TrailingBracketItems(ts, EncodeAll(ts) + "[");
    ExpandEncoded(ts);
  }

  lemma TrailingBracketItems(ts: seq<FieldType>, d: string)
    requires forall k | 0 <= k < |ts| :: WellFormed(ts[k])
    requires d == EncodeAll(ts) + "["
    ensures ExpandFrom(d, 0, "") == Some(RenderAll(ts))
  {
    var e := EncodeAll(ts);
    assert d[0..|e|] == e;
    ExpandMany(d, 0, ts);
    LastBracket(d, |e|);
    assert RenderAll(ts) + [] == RenderAll(ts);
  }

  lemma LastBracket(d: string, i: nat)
    requires i + 1 == |d| && d[i] == '['
    ensures ExpandFrom(d, i, "") == Some([])
  {
    assert ExpandFrom(d, i + 1, "[]") == Some([]);
  }

  /** A character that starts no type makes expand fail. */
  lemma InvalidCharacter(d: string, i: nat, pending: string)
    requires i < |d| && d[i] != '[' && d[i] != 'L' && BaseName(d[i]).None?
    ensures ExpandFrom(d, i, pending) == None
  {
  }

  /** An 'L' with no ';' after it makes expand fail. */
  lemma UnterminatedClassName(d: string, i: nat, pending: string)
    requires i < |d| && d[i] == 'L'
    requires forall j | i < j < |d| :: d[j] != ';'
    ensures ExpandFrom(d, i, pending) == None
  {
  }

  /** A failure anywhere after the start fails the whole expansion: the
      items read before it are discarded. */
  lemma {:induction false} FailurePropagates(d: string, i: nat, pending: string)
    requires i < |d| && d[i] == 'L' && IndexOf(d, ';', i + 1).Some?
    requires ExpandFrom(d, IndexOf(d, ';', i + 1).value + 1, "") == None
    ensures ExpandFrom(d, i, pending) == None
  {
  }

  /** getSignature of a field renders the field's type and its name. */
  lemma FieldSignature(name: string, t: FieldType)
    requires WellFormed(t)
    ensures GetSignature(name, Encode(t)) == Some(Render(t) + " " + name)
  {
    assert [t][1..] == [];
    assert EncodeAll([t]) == Encode(t) + "" == Encode(t);
    assert RenderAll([t]) == [Render(t)] + [] == [Render(t)];
    ExpandEncoded([t]);
    assert Encode(t)[0] != '(';
  }

  /** getSignature of a method renders the return type, the name and the
      parameter types in parentheses, as long as no class name among the
      parameters holds a ')': the split is at the first ')'. */
  lemma MethodSignature(name: string, ps: seq<FieldType>, ret: FieldType)
    requires forall k | 0 <= k < |ps| :: WellFormed(ps[k])
    requires WellFormed(ret)
    requires forall j | 0 <= j < |EncodeAll(ps)| :: EncodeAll(ps)[j] != ')'
    ensures GetSignature(name, "(" + EncodeAll(ps) + ")" + Encode(ret)) ==
              Some(Render(ret) + " " + name + "(" + Join(RenderAll(ps), ", ") + ")")
  {
    var p := EncodeAll(ps);
    var d := "(" + p + ")" + Encode(ret);
    var k := |p| + 1;
    IndexOfFirst(d, ')', 0, k);
    assert d[1..k] == p;
    assert d[k + 1..] == Encode(ret);
    ExpandEncoded(ps);
    FieldSignature(name, ret);
    ExpandEncoded([ret]);
    assert EncodeAll([ret]) == Encode(ret) + EncodeAll([]);
    assert RenderAll([ret]) == [Render(ret)];
  }
}
