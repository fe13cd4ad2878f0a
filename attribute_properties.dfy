/**
 * Properties of the attribute decoder and validator: the layout each frame
 * type and element-value tag selects, the opaque fallback for unknown names,
 * the declared length being ignored by known names, the Code body layout and
 * the inclusive exception-table bounds.
 */
module AttributeProperties {
  import opened Bytes
  import opened ConstantPool
  import opened Attributes
  import opened AttributeDecoding
  import opened AttributeValidation

  // ---------------------------------------------------------------------
  // Stack-map frames

  /** What each range of frame types decodes to: the offset delta, the
      number of stack and local entries, and the bytes consumed before any
      verification types. Types 128-246 are rejected. */
  lemma DecodedFrameShape(b: seq<byte>, p: nat)
    requires ParseFrame(b, p).Ok?
    ensures var t := b[p]; var f := ParseFrame(b, p).value.value;
      && !(128 <= t < 247)
      && (t <= 63 ==> f == SameFrame(t) && ParseFrame(b, p).value.next == p + 1)
      && (64 <= t <= 127 ==> (f.SameLocals1StackItem? && f.offsetDelta == t - 64 &&
                              |Stack(f)| == 1 && Locals(f) == []))
      && (t >= 247 ==> p + 3 <= |b| && f.offsetDelta == U2(b, p + 1))
      && (t == 247 ==> |Stack(f)| == 1 && Locals(f) == [])
      && (248 <= t <= 251 ==> (Stack(f) == [] && Locals(f) == [] &&
                               ParseFrame(b, p).value.next == p + 3))
      && (252 <= t <= 254 ==> Stack(f) == [] && |Locals(f)| == t - 251)
      && (t == 255 ==> f.FullFrame? && p + 5 <= |b| && |Locals(f)| == U2(b, p + 3) &&
                        ParseCounted(b, p + 3, ParseVerificationType).Ok? &&
                        Locals(f) == ParseCounted(b, p + 3, ParseVerificationType).value.value &&
                        var q := ParseCounted(b, p + 3, ParseVerificationType).value.next;
                        q + 2 <= |b| && |Stack(f)| == U2(b, q) &&
                        ParseCounted(b, q, ParseVerificationType) == Ok(Parsed(Stack(f), ParseFrame(b, p).value.next)))
  {
    var t := b[p];
    if t == 255 {
      assert Advancing(ParseVerificationType);
    }
  }

  // ---------------------------------------------------------------------
  // Element values

  /** What each element-value tag decodes to and how many bytes the
      fixed-width ones take. */
  lemma DecodedElementValueShape(b: seq<byte>, p: nat)
    requires ParseElementValue(b, p).Ok?
    ensures var t := b[p]; var r := ParseElementValue(b, p).value;
      && (IsConstTag(t) ==> p + 3 <= |b| && r == Parsed(ConstValue(t, U2(b, p + 1)), p + 3))
      && (t == TAG_ENUM ==> p + 5 <= |b| && r == Parsed(EnumValue(U2(b, p + 1), U2(b, p + 3)), p + 5))
      && (t == TAG_CLASS ==> p + 3 <= |b| && r == Parsed(ClassValue(U2(b, p + 1)), p + 3))
      && (t == TAG_ANNOTATION ==> (ParseAnnotation(b, p + 1).Ok? &&
                                   r.value == AnnotationValue(ParseAnnotation(b, p + 1).value.value)))
      && (t == TAG_ARRAY ==> p + 3 <= |b| && r.value.ArrayValue? && |r.value.values| == U2(b, p + 1))
  {
  }

  // ---------------------------------------------------------------------
  // Attribute headers and the opaque fallback

  /** An attribute whose name is not one the decoder knows consumes exactly
      its declared length after the 6-byte header, fails if that many bytes
      are not there or the length is negative, and always validates. */
  lemma UnknownAttribute(b: seq<byte>, p: nat, pool: Pool)
    requires p + 6 <= |b|
    requires HasTag(pool, U2(b, p), UTF8) && !IsKnownName(pool[U2(b, p)].value.bytes)
    ensures var r := ParseAttribute(b, p, pool); var length := S4(b, p + 2);
      && (r.Ok? <==> 0 <= length && p + 6 + length <= |b|)
      && (length < 0 ==> r == Err(BadLength))
      && (r.Ok? ==> (r.value.next == p + 6 + length &&
                     r.value.value.info == Unknown(b[p + 6..p + 6 + length]) &&
                     AttributeValid(pool, r.value.value)))
  {
  }

  /** A known name reads its own layout; the declared length plays no part
      in what is decoded or where decoding stops. */
  lemma KnownNameIgnoresLength(b: seq<byte>, p: nat, pool: Pool, name: seq<byte>, l1: int, l2: int)
    requires IsKnownName(name)
    ensures ParseInfo(b, p, pool, name, l1) == ParseInfo(b, p, pool, name, l2)
  {
  }

  /** Synthetic and Deprecated have no body: decoding consumes only the
      header, and validation passes exactly when the declared length is 0. */
  lemma MarkerAttributes(b: seq<byte>, p: nat, pool: Pool)
    requires ParseAttribute(b, p, pool).Ok?
    requires pool[U2(b, p)].value.bytes in {SYNTHETIC, DEPRECATED}
    ensures var a := ParseAttribute(b, p, pool).value;
      && a.next == p + 6
      && (a.value.info == Synthetic || a.value.info == Deprecated)
      && (AttributeValid(pool, a.value) <==> S4(b, p + 2) == 0)
  {
    var name := pool[U2(b, p)].value.bytes;
    assert DEPRECATED[0] != EXCEPTIONS[0] && DEPRECATED[0] != SOURCE_FILE[0];
    assert SYNTHETIC[1] != SIGNATURE[1];
  }

  /** The attributes whose body is one u2 pool index take 2 bytes, and
      validate exactly when that index names an entry of the tag their
      branch of AttributeInfo.validate asks for. */
  lemma SingleIndexAttributes(b: seq<byte>, p: nat, pool: Pool, name: seq<byte>, length: int)
    requires ParseInfo(b, p, pool, name, length).Ok?
    requires name in {CONSTANT_VALUE, SIGNATURE, SOURCE_FILE, MODULE_MAIN_CLASS, NEST_HOST}
    ensures p + 2 <= |b|
    ensures var r := ParseInfo(b, p, pool, name, length).value; var i := U2(b, p);
      && r.next == p + 2
      && (name == CONSTANT_VALUE ==>
            (InfoValid(pool, length, r.value) <==>
               HasTag(pool, i, INTEGER) || HasTag(pool, i, FLOAT) || HasTag(pool, i, LONG) ||
               HasTag(pool, i, DOUBLE) || HasTag(pool, i, STRING)))
      && (name == SIGNATURE || name == SOURCE_FILE ==> (InfoValid(pool, length, r.value) <==> HasTag(pool, i, UTF8)))
      && (name == MODULE_MAIN_CLASS || name == NEST_HOST ==> (InfoValid(pool, length, r.value) <==> HasTag(pool, i, CLASS)))
  {
    assert SIGNATURE[1] != SYNTHETIC[1];
    assert SOURCE_FILE[0] != EXCEPTIONS[0] && SOURCE_FILE[0] != DEPRECATED[0];
    assert MODULE_MAIN_CLASS[0] != ENCLOSING_METHOD[0] && MODULE_MAIN_CLASS[0] != LINE_NUMBER_TABLE[0];
  }

  /** LineNumberTable and SourceDebugExtension have no validation branch
      that can fail: once decoded they always validate. */
  lemma UncheckedAttributes(b: seq<byte>, p: nat, pool: Pool, name: seq<byte>, length: int)
    requires ParseInfo(b, p, pool, name, length).Ok?
    requires name == LINE_NUMBER_TABLE || name == SOURCE_DEBUG_EXTENSION
    ensures InfoValid(pool, length, ParseInfo(b, p, pool, name, length).value.value)
  {
    assert LINE_NUMBER_TABLE[0] != ENCLOSING_METHOD[0];
  }

  // ---------------------------------------------------------------------
  // Code bodies

  /** The layout of a decoded Code body: max_stack, max_locals and the
      length take 8 bytes, the code itself takes `length` bytes, then comes
      a u2-counted table of 8-byte handlers, then the u2-counted attributes,
      which end where the body ends. */
  lemma CodeLayout(b: seq<byte>, p: nat, pool: Pool)
    requires ParseCode(b, p, pool).Ok?
    ensures var c := ParseCode(b, p, pool).value; var length := S4(b, p + 4);
      var tableEnd := p + 8 + length + 2 + 8 * |c.value.exceptionTable|;
      && c.value.maxStack == U2(b, p) && c.value.maxLocals == U2(b, p + 2)
      && |c.value.code| == length
      && tableEnd + 2 <= |b|
      && |c.value.exceptionTable| == U2(b, p + 8 + length)
      && ParseCounted(b, p + 8 + length, ParseHandler) == Ok(Parsed(c.value.exceptionTable, tableEnd))
      && ParseAttributes(b, tableEnd + 2, U2(b, tableEnd), pool) == Ok(Parsed(c.value.attributes, c.next))
  {
    var length := S4(b, p + 4);
    ParseSeqFixedWidth(b, p + 8 + length + 2, U2(b, p + 8 + length), ParseHandler, 8);
  }

  /** The exception-table comparisons are not strict: a handler whose range
      ends at the code length, is empty, and whose handler sits at the code
      length passes, and one past the end does not. */
  lemma HandlerBoundsInclusive(pool: Pool, n: u16)
    ensures HandlerValid(pool, n, ExceptionHandler(n, n, n, 0))
    ensures n < 0xFFFF ==> !HandlerValid(pool, n, ExceptionHandler(0, n + 1, 0, 0))
    ensures n < 0xFFFF ==> !HandlerValid(pool, n, ExceptionHandler(0, 0, n + 1, 0))
    ensures n > 0 ==> !HandlerValid(pool, n, ExceptionHandler(n, n - 1, 0, 0))
  {
  }

  /** Code.validate never looks at the code bytes themselves: only their
      number takes part, so any code of the same length validates alike. */
  lemma CodeValidOnlyLength(pool: Pool, c: Code, code: seq<byte>)
    requires |code| == |c.code|
    ensures CodeValid(pool, c) <==> CodeValid(pool, c.(code := code))
  {
  }

  /** Code.validate checks every table entry and every nested attribute:
      one more handler or attribute keeps a body valid exactly when that
      handler or attribute passes, so a single bad one rejects the body. */
  lemma CodeValidExtend(pool: Pool, c: Code, h: ExceptionHandler, a: Attribute)
    ensures CodeValid(pool, c.(exceptionTable := c.exceptionTable + [h])) <==>
            CodeValid(pool, c) && HandlerValid(pool, |c.code|, h)
    ensures CodeValid(pool, c.(attributes := c.attributes + [a])) <==>
            CodeValid(pool, c) && AttributeValid(pool, a)
  {
    var c1 := c.(exceptionTable := c.exceptionTable + [h]);
    assert forall k | 0 <= k < |c.exceptionTable| :: c1.exceptionTable[k] == c.exceptionTable[k];
    assert c1.exceptionTable[|c.exceptionTable|] == h;
    var c2 := c.(attributes := c.attributes + [a]);
    assert forall k | 0 <= k < |c.attributes| :: c2.attributes[k] == c.attributes[k];
    assert c2.attributes[|c.attributes|] == a;
  }

  // ---------------------------------------------------------------------
  // Fixed-width tables

  /** The tables of fixed-width records take a u2 count and then exactly
      count times the record width. */
  lemma FixedWidthTables(b: seq<byte>, p: nat, pool: Pool, name: seq<byte>, length: int)
    requires ParseInfo(b, p, pool, name, length).Ok?
    ensures var next := ParseInfo(b, p, pool, name, length).value.next;
      && (name == EXCEPTIONS ==> next == p + 2 + 2 * U2(b, p))
      && (name == INNER_CLASSES ==> next == p + 2 + 8 * U2(b, p))
      && (name == LINE_NUMBER_TABLE ==> next == p + 2 + 4 * U2(b, p))
      && (name == LOCAL_VARIABLE_TABLE ==> next == p + 2 + 10 * U2(b, p))
  {
    assert LINE_NUMBER_TABLE[0] != ENCLOSING_METHOD[0];
    if name == EXCEPTIONS {
      ParseSeqFixedWidth(b, p + 2, U2(b, p), ParseU2, 2);
    } else if name == INNER_CLASSES {
      ParseSeqFixedWidth(b, p + 2, U2(b, p), ParseInnerClass, 8);
    } else if name == LINE_NUMBER_TABLE {
      ParseSeqFixedWidth(b, p + 2, U2(b, p), ParseLineNumber, 4);
    } else if name == LOCAL_VARIABLE_TABLE {
      ParseSeqFixedWidth(b, p + 2, U2(b, p), ParseLocalVariable, 10);
    }
  }
}
