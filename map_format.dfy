/*
  The map file format of game/src/mf/MapFile.cpp, as values: what each writer
  appends to the stream, what each reader takes from it, and the round trips
  between the two.  The stateful MapFile object that drives these is in
  map_file.dfy.
*/
module MapFormat {
  import opened Wrappers
  import opened MapCodec
  import opened ByteMap

  const TWO64: int := 0x1_0000_0000_0000_0000

  predicate IsDataType(t: int32) {
    t == DATATYPE_INT || t == DATATYPE_FLOAT || t == DATATYPE_STRING
  }

  /** An attribute or property value: an int, a float (its bit pattern) or a string. */
  datatype Value = IntVal(i: int32) | FloatVal(bits: uint32) | StrVal(s: Bytes)
  {
    function TypeCode(): (t: int32)
      ensures IsDataType(t)
    {
      match this
      case IntVal(_) => DATATYPE_INT
      case FloatVal(_) => DATATYPE_FLOAT
      case StrVal(_) => DATATYPE_STRING
    }

    /** Fits WriteString, which asserts at most 0xFFFF bytes. */
    predicate Writable() {
      StrVal? ==> |s| < TWO16
    }
  }

  /** The Property(enumDataTypes) constructor of MapFile.h: the zero value of
      a data type, or "Unknown data type" for any other code. */
  function NewProperty(t: int32): (r: Result<Value, Error>)
    ensures r.Ok? <==> IsDataType(t)
    ensures r.Ok? ==> r.value.TypeCode() == t && r.value.Writable()
    ensures r.Err? ==> r.error == UnknownDataType
  {
    if t == DATATYPE_INT then Ok(IntVal(0))
    else if t == DATATYPE_FLOAT then Ok(FloatVal(0))
    else if t == DATATYPE_STRING then Ok(StrVal([]))
    else Err(UnknownDataType)
  }

  datatype Property = Property(name: Bytes, value: Value)

  datatype ObjectDefinition = ObjectDefinition(className: Bytes, props: seq<Property>)

  /** Every property holds the zero value of its type, as a definition does
      before any object of its class was read. */
  ghost predicate Blank(ps: seq<Property>) {
    forall i :: 0 <= i < |ps| ==> NewProperty(ps[i].value.TypeCode()) == Ok(ps[i].value)
  }

  // ---- values ------------------------------------------------------------------

  /** The bytes setObjectAttribute puts in the object buffer for a value.  A
      string gets a 16-bit length and then that many bytes, cut like
      WriteString cuts them (the source writes every byte; see LongStringMisaligns). */
  function EncodeValue(v: Value): (b: Bytes)
    ensures |b| == ValueLen(v)
  {
    match v
    case IntVal(i) => I32(i)
    case FloatVal(bits) => F32(bits)
    case StrVal(s) => Str(s)
  }

  function ValueLen(v: Value): nat
  {
    if v.StrVal? then 2 + |v.s| % TWO16 else 4
  }

  /** setObjectAttribute(name, string_view) as written: the length is cut to
      16 bits but all the bytes follow. */
  function EncodeValueAsWritten(v: Value): (b: Bytes)
    ensures v.Writable() ==> b == EncodeValue(v)
  {
    match v
    case StrVal(s) => U16(|s| % TWO16) + s
    case _ => EncodeValue(v)
  }

  /** The value a reader gets back for `v`: strings longer than 0xFFFF bytes
      lose their tail. */
  function Stored(v: Value): (w: Value)
    ensures w.TypeCode() == v.TypeCode()
    ensures v.Writable() ==> w == v
  {
    match v
    case StrVal(s) => StrVal(Cut(s))
    case _ => v
  }

  /** ReadInt, ReadFloat or ReadString, chosen by a data-type code. */
  function ReadValue(data: Bytes, pos: nat, t: int32): (r: Result<(Value, nat), Error>)
    requires IsDataType(t)
    ensures r.Ok? ==> r.value.0.TypeCode() == t && r.value.0.Writable() && pos < r.value.1 <= |data|
    ensures r.Err? ==> r.error == UnexpectedEof
  {
    if t == DATATYPE_INT then
      var x :- ReadInt(data, pos);
      Ok((IntVal(x.0), x.1))
    else if t == DATATYPE_FLOAT then
      var x :- ReadFloat(data, pos);
      Ok((FloatVal(x.0), x.1))
    else
      var x :- ReadString(data, pos);
      Ok((StrVal(x.0), x.1))
  }

  /** Reading a value of the type written gives back the stored value and
      stops exactly at the end of its bytes, for every value. */
  lemma {:induction false} ReadValueAt(data: Bytes, pos: nat, v: Value, end: nat)
    requires At(data, pos, EncodeValue(v)) && end == pos + ValueLen(v)
    ensures ReadValue(data, pos, v.TypeCode()) == Ok((Stored(v), end))
  {
    match v
    case IntVal(i) => ReadIntAt(data, pos, i, end);
    case FloatVal(bits) => ReadFloatAt(data, pos, bits, end);
    case StrVal(s) => ReadStringAt(data, pos, s, end);
  }

  /** As written, a string of 65536 bytes is stored with length 0: the reader
      takes the empty string, then reads the next int from the string's own
      bytes (0 instead of the 7 that was written). */
  lemma {:induction false} LongStringMisaligns()
    ensures var s := seq(TWO16, _ => 0 as byte);
      var data := EncodeValueAsWritten(StrVal(s)) + I32(7);
      ReadValue(data, 0, DATATYPE_STRING) == Ok((StrVal([]), 2)) &&
      ReadValue(data, 2, DATATYPE_INT) == Ok((IntVal(0), 6))
  {
    var s := seq(TWO16, _ => 0 as byte);
    var data := EncodeValueAsWritten(StrVal(s)) + I32(7);
    assert data[0..2] == [0, 0];
    assert data[2..6] == [0, 0, 0, 0];
  }

  function EncodeValues(vs: seq<Value>): (b: Bytes)
    decreases |vs|
  {
    if |vs| == 0 then [] else EncodeValue(vs[0]) + EncodeValues(vs[1..])
  }

  lemma {:induction false} EncodeValuesSnoc(vs: seq<Value>, v: Value)
    ensures EncodeValues(vs + [v]) == EncodeValues(vs) + EncodeValue(v)
    decreases |vs|
  {
    if |vs| > 0 {
      assert (vs + [v])[1..] == vs[1..] + [v];
      EncodeValuesSnoc(vs[1..], v);
    } else {
      assert EncodeValues([v][1..]) == [];
    }
  }

  /** The values written for an object fit its class's properties one by one. */
  predicate Matches(ps: seq<Property>, vs: seq<Value>) {
    |ps| == |vs| && forall i :: 0 <= i < |ps| ==> ps[i].value.TypeCode() == vs[i].TypeCode()
  }

  /** The properties of a class holding the values read for one object. */
  function Filled(ps: seq<Property>, vs: seq<Value>): (r: seq<Property>)
    requires |vs| == |ps|
    ensures |r| == |ps|
  {
    seq(|ps|, i requires 0 <= i < |ps| => Property(ps[i].name, Stored(vs[i])))
  }

  /** The loop of NextObject that reads one object's values, each by the
      type of its class's property. */
  function ReadValues(data: Bytes, pos: nat, ps: seq<Property>): (r: Result<(seq<Property>, nat), Error>)
    ensures r.Ok? ==> |r.value.0| == |ps| && pos <= r.value.1
    decreases |ps|, 1
  {
    if |ps| == 0 then Ok(([], pos)) else ReadValuesCons(data, pos, ps)
  }

  function ReadValuesCons(data: Bytes, pos: nat, ps: seq<Property>): (r: Result<(seq<Property>, nat), Error>)
    requires |ps| > 0
    ensures r.Ok? ==> |r.value.0| == |ps| && pos <= r.value.1
    decreases |ps|, 0
  {
    var first :- ReadValue(data, pos, ps[0].value.TypeCode());
    var rest :- ReadValues(data, first.1, ps[1..]);
    Ok(([Property(ps[0].name, first.0)] + rest.0, rest.1))
  }

  /** Reading an object's values by its class's properties gives back the
      values written, each stored in its property, and stops right after them. */
  lemma {:induction false} ReadValuesAt(data: Bytes, pos: nat, ps: seq<Property>, vs: seq<Value>, end: nat)
    requires Matches(ps, vs)
    requires At(data, pos, EncodeValues(vs)) && end == pos + |EncodeValues(vs)|
    ensures ReadValues(data, pos, ps) == Ok((Filled(ps, vs), end))
    decreases |ps|
  {
    if |ps| > 0 {
      var p1 := pos + ValueLen(vs[0]);
      assert ps[0].value.TypeCode() == vs[0].TypeCode();
      ReadFirstValue(data, pos, vs, p1);
      ReadValuesAt(data, p1, ps[1..], vs[1..], end);
      ReadValuesStep(data, pos, ps, Stored(vs[0]), p1, Filled(ps[1..], vs[1..]), end);
      FilledCons(ps, vs);
    }
  }

  lemma {:induction false} ReadFirstValue(data: Bytes, pos: nat, vs: seq<Value>, p1: nat)
    requires |vs| > 0
    requires At(data, pos, EncodeValues(vs)) && p1 == pos + ValueLen(vs[0])
    ensures ReadValue(data, pos, vs[0].TypeCode()) == Ok((Stored(vs[0]), p1))
    ensures At(data, p1, EncodeValues(vs[1..]))
    ensures |EncodeValues(vs)| == ValueLen(vs[0]) + |EncodeValues(vs[1..])|
  {
    assert EncodeValues(vs) == EncodeValue(vs[0]) + EncodeValues(vs[1..]);
    AtSplit(data, pos, EncodeValue(vs[0]), EncodeValues(vs[1..]), p1);
    ReadValueAt(data, pos, vs[0], p1);
  }

  lemma {:induction false} FilledCons(ps: seq<Property>, vs: seq<Value>)
    requires |ps| == |vs| > 0
    ensures Filled(ps, vs) == [Property(ps[0].name, Stored(vs[0]))] + Filled(ps[1..], vs[1..])
  {
  }

  lemma {:induction false} ReadValuesStep(data: Bytes, pos: nat, ps: seq<Property>, v: Value, p1: nat, rest: seq<Property>, end: nat)
    requires |ps| > 0 && ReadValue(data, pos, ps[0].value.TypeCode()) == Ok((v, p1))
    requires ReadValues(data, p1, ps[1..]) == Ok((rest, end))
    ensures ReadValues(data, pos, ps) == Ok(([Property(ps[0].name, v)] + rest, end))
  {
  }

  // ---- class definitions ---------------------------------------------------------

  predicate NamesFit(ps: seq<Property>) {
    forall i :: 0 <= i < |ps| ==> |ps[i].name| < TWO16
  }

  /** The property part of a definition chunk: each property's type code and name. */
  function PropDefs(ps: seq<Property>): Bytes
    decreases |ps|
  {
    if |ps| == 0 then [] else I32(ps[0].value.TypeCode()) + Str(ps[0].name) + PropDefs(ps[1..])
  }

  lemma {:induction false} PropDefsSnoc(ps: seq<Property>, p: Property)
    ensures PropDefs(ps + [p]) == PropDefs(ps) + (I32(p.value.TypeCode()) + Str(p.name))
    decreases |ps|
  {
    if |ps| > 0 {
      assert (ps + [p])[1..] == ps[1..] + [p];
      PropDefsSnoc(ps[1..], p);
    } else {
      assert PropDefs([p][1..]) == [];
    }
  }

  predicate DefinitionFits(od: ObjectDefinition) {
    |od.className| < TWO16 && |od.props| < TWO31 && NamesFit(od.props)
  }

  /** What WriteCurrentObject writes after a definition chunk's header: the
      class name, the property count as an `int`, the properties. */
  function DefinitionPayload(od: ObjectDefinition): Bytes
  {
    Str(od.className) + I32(ToInt32(|od.props|)) + PropDefs(od.props)
  }

  /** A "dfn:" chunk; its size field is the payload's length as a `uint32_t`. */
  function DefinitionChunk(od: ObjectDefinition): (b: Bytes)
    ensures |b| == 8 + |DefinitionPayload(od)|
  {
    EncodeChunkHeader(ChunkHeader(CHUNK_OBJDEF, ToUint32(|DefinitionPayload(od)|))) + DefinitionPayload(od)
  }

  /** An "obj:" chunk around an object buffer. */
  function ObjectChunk(payload: Bytes): (b: Bytes)
    ensures |b| == 8 + |payload|
  {
    EncodeChunkHeader(ChunkHeader(CHUNK_OBJECT, ToUint32(|payload|))) + payload
  }

  /** `n` property definitions: a type code and a name each; a type code
      other than the three data types is "invalid file". */
  function ReadPropDefs(data: Bytes, pos: nat, n: nat): (r: Result<(seq<Property>, nat), Error>)
    ensures r.Ok? ==> |r.value.0| == n && Blank(r.value.0) && pos <= r.value.1
    decreases n, 1
  {
    if n == 0 then Ok(([], pos)) else ReadPropDef(data, pos, n)
  }

  /** The first of `n` property definitions, then the others. */
  function ReadPropDef(data: Bytes, pos: nat, n: nat): (r: Result<(seq<Property>, nat), Error>)
    requires n > 0
    ensures r.Ok? ==> |r.value.0| == n && Blank(r.value.0) && pos <= r.value.1
    decreases n, 0
  {
    var t :- ReadInt(data, pos);
    var name :- ReadString(data, t.1);
    if !IsDataType(t.0) then Err(InvalidFile)
    else
      var rest :- ReadPropDefs(data, name.1, n - 1);
      Ok(([Property(name.0, NewProperty(t.0).value)] + rest.0, rest.1))
  }

  lemma {:induction false} ReadPropDefsStep(data: Bytes, pos: nat, n: nat, t: int32, name: Bytes, p1: nat, p2: nat, rest: seq<Property>, end: nat)
    requires n == |rest| + 1 && IsDataType(t)
    requires ReadInt(data, pos) == Ok((t, p1)) && ReadString(data, p1) == Ok((name, p2))
    requires ReadPropDefs(data, p2, |rest|) == Ok((rest, end))
    ensures ReadPropDefs(data, pos, n) == Ok(([Property(name, NewProperty(t).value)] + rest, end))
  {
    assert ReadPropDefs(data, pos, n) == ReadPropDef(data, pos, n);
  }

  /** The first property definition of a list, and what holds of the rest. */
  lemma {:induction false} PropDefsHead(ps: seq<Property>)
    requires |ps| > 0 && NamesFit(ps) && Blank(ps)
    ensures PropDefs(ps) == I32(ps[0].value.TypeCode()) + Str(ps[0].name) + PropDefs(ps[1..])
    ensures NamesFit(ps[1..]) && Blank(ps[1..]) && |ps[0].name| < TWO16
    ensures NewProperty(ps[0].value.TypeCode()) == Ok(ps[0].value)
    ensures ps == [Property(ps[0].name, ps[0].value)] + ps[1..]
  {
    assert forall i :: 0 <= i < |ps[1..]| ==> ps[1..][i] == ps[i + 1];
  }

  lemma {:induction false} ReadPropDefsAt(data: Bytes, pos: nat, ps: seq<Property>, end: nat)
    requires NamesFit(ps) && Blank(ps) && At(data, pos, PropDefs(ps)) && end == pos + |PropDefs(ps)|
    ensures ReadPropDefs(data, pos, |ps|) == Ok((ps, end))
    decreases |ps|
  {
    if |ps| > 0 {
      var t := I32(ps[0].value.TypeCode());
      var n := Str(ps[0].name);
      var p1 := pos + 4;
      var p2 := p1 + |n|;
      PropDefsHead(ps);
      AtThree(data, pos, t, n, PropDefs(ps[1..]), p1, p2);
      ReadIntAt(data, pos, ps[0].value.TypeCode(), p1);
      ReadStringAt(data, p1, ps[0].name, p2);
      ReadPropDefsAt(data, p2, ps[1..], end);
      ReadPropDefsStep(data, pos, |ps|, ps[0].value.TypeCode(), ps[0].name, p1, p2, ps[1..], end);
    }
  }

  /** A definition chunk's payload: class name, property count, properties.
      A negative count is the length_error of vector::resize. */
  function ReadDefinition(data: Bytes, pos: nat): (r: Result<(ObjectDefinition, nat), Error>)
    ensures r.Ok? ==> Blank(r.value.0.props) && pos < r.value.1
  {
    var name :- ReadString(data, pos);
    var count :- ReadInt(data, name.1);
    if count.0 < 0 then Err(LengthError)
    else
      var ps :- ReadPropDefs(data, count.1, count.0 as nat);
      Ok((ObjectDefinition(name.0, ps.0), ps.1))
  }

  lemma {:induction false} ReadDefinitionStep(data: Bytes, pos: nat, name: Bytes, p1: nat, count: int32, p2: nat, ps: seq<Property>, end: nat)
    requires ReadString(data, pos) == Ok((name, p1)) && ReadInt(data, p1) == Ok((count, p2)) && count >= 0
    requires ReadPropDefs(data, p2, count as nat) == Ok((ps, end))
    ensures ReadDefinition(data, pos) == Ok((ObjectDefinition(name, ps), end))
  {
  }

  /** What the writer's definition payload reads back as: the same definition. */
  lemma {:induction false} ReadDefinitionAt(data: Bytes, pos: nat, od: ObjectDefinition, end: nat)
    requires DefinitionFits(od) && Blank(od.props) && At(data, pos, DefinitionPayload(od))
    requires end == pos + |DefinitionPayload(od)|
    ensures ReadDefinition(data, pos) == Ok((od, end))
  {
    var n := Str(od.className);
    var c := I32(ToInt32(|od.props|));
    var p1 := pos + |n|;
    var p2 := p1 + 4;
    AtThree(data, pos, n, c, PropDefs(od.props), p1, p2);
    ReadStringAt(data, pos, od.className, p1);
    ReadIntAt(data, p1, ToInt32(|od.props|), p2);
    ReadPropDefsAt(data, p2, od.props, end);
    assert ToInt32(|od.props|) as nat == |od.props|;
    ReadDefinitionStep(data, pos, od.className, p1, ToInt32(|od.props|), p2, od.props, end);
  }

  // ---- NextObject ----------------------------------------------------------------------

  /** Where NextObject stops: whether it found an object, the stream
      position, the known classes (the current object's values stored in its
      class) and the current class index. */
  datatype Next = Next(found: bool, pos: nat, classes: seq<ObjectDefinition>, objType: int32)

  /** The chunk loop of NextObject: definitions are collected, unknown chunks
      skipped, the first object chunk read into its class; no further chunk
      header means no further object. */
  function NextChunk(data: Bytes, pos: nat, classes: seq<ObjectDefinition>, objType: int32): (r: Result<Next, Error>)
    ensures pos + 8 > |data| ==> r == Ok(Next(false, pos, classes, objType))
    ensures r.Ok? && r.value.found ==> 0 <= r.value.objType as int < |r.value.classes|
    ensures r.Ok? ==> |classes| <= |r.value.classes|
    ensures r.Ok? && !r.value.found ==> r.value.objType == objType
    decreases |data| - pos, 1
  {
    match ReadChunkHeader(data, pos)
    case None => Ok(Next(false, pos, classes, objType))
    case Some(ch) => ChunkStep(data, pos, ch, classes, objType)
  }

  /** One pass of the chunk loop, on the chunk header read at `pos`. */
  function ChunkStep(data: Bytes, pos: nat, ch: ChunkHeader, classes: seq<ObjectDefinition>, objType: int32): (r: Result<Next, Error>)
    requires pos + 8 <= |data|
    ensures r.Ok? && r.value.found ==> 0 <= r.value.objType as int < |r.value.classes|
    ensures r.Ok? ==> |classes| <= |r.value.classes|
    ensures r.Ok? && !r.value.found ==> r.value.objType == objType
    decreases |data| - pos, 0
  {
    if ch.chunkType == CHUNK_OBJDEF then
      var d :- ReadDefinition(data, pos + 8);
      NextChunk(data, d.1, classes + [d.0], objType)
    else if ch.chunkType == CHUNK_OBJECT then
      var t :- ReadInt(data, pos + 8);
      if t.0 < 0 || t.0 as int >= |classes| then Err(InvalidClass)
      else
        var k := t.0 as int;
        var ps :- ReadValues(data, t.1, classes[k].props);
        Ok(Next(true, ps.1, classes[k := ObjectDefinition(classes[k].className, ps.0)], t.0))
    else
      NextChunk(data, pos + 8 + ch.chunkSize as int, classes, objType)
  }

  /** A chunk of any kind other than "dfn:" and "obj:" is passed over whole. */
  lemma {:induction false} SkipsOtherChunk(data: Bytes, pos: nat, ch: ChunkHeader, classes: seq<ObjectDefinition>, objType: int32)
    requires ch.chunkType != CHUNK_OBJDEF && ch.chunkType != CHUNK_OBJECT
    requires At(data, pos, EncodeChunkHeader(ch))
    ensures NextChunk(data, pos, classes, objType) == NextChunk(data, pos + 8 + ch.chunkSize as int, classes, objType)
  {
    ReadChunkHeaderAt(data, pos, ch);
  }

  /** NextChunk over an "obj:" chunk whose class index and values read. */
  lemma {:induction false} ObjectStep(data: Bytes, pos: nat, size: uint32, idx: int32, classes: seq<ObjectDefinition>, objType: int32, ps: seq<Property>, p8: nat, p12: nat, end: nat)
    requires ReadChunkHeader(data, pos) == Some(ChunkHeader(CHUNK_OBJECT, size)) && p8 == pos + 8
    requires ReadInt(data, p8) == Ok((idx, p12)) && 0 <= idx as int < |classes|
    requires ReadValues(data, p12, classes[idx as int].props) == Ok((ps, end))
    ensures NextChunk(data, pos, classes, objType) ==
      Ok(Next(true, end, classes[idx as int := ObjectDefinition(classes[idx as int].className, ps)], idx))
  {
  }

  /** NextChunk over a "dfn:" chunk whose definition reads: one more class. */
  lemma {:induction false} DefinitionStep(data: Bytes, pos: nat, size: uint32, od: ObjectDefinition, p8: nat, end: nat, classes: seq<ObjectDefinition>, objType: int32)
    requires ReadChunkHeader(data, pos) == Some(ChunkHeader(CHUNK_OBJDEF, size)) && p8 == pos + 8
    requires ReadDefinition(data, p8) == Ok((od, end))
    ensures NextChunk(data, pos, classes, objType) == NextChunk(data, end, classes + [od], objType)
  {
  }

  /** The header and class index of an "obj:" chunk as written. */
  lemma {:induction false} ObjectChunkAt(data: Bytes, pos: nat, idx: int32, vs: seq<Value>, p8: nat, p12: nat)
    requires At(data, pos, ObjectChunk(I32(idx) + EncodeValues(vs))) && p8 == pos + 8 && p12 == pos + 12
    ensures ReadChunkHeader(data, pos) == Some(ChunkHeader(CHUNK_OBJECT, ToUint32(|I32(idx) + EncodeValues(vs)|)))
    ensures ReadInt(data, p8) == Ok((idx, p12))
    ensures At(data, p12, EncodeValues(vs))
  {
    var ch := ChunkHeader(CHUNK_OBJECT, ToUint32(|I32(idx) + EncodeValues(vs)|));
    assert ObjectChunk(I32(idx) + EncodeValues(vs)) == EncodeChunkHeader(ch) + I32(idx) + EncodeValues(vs);
    AtThree(data, pos, EncodeChunkHeader(ch), I32(idx), EncodeValues(vs), p8, p12);
    ReadChunkHeaderAt(data, pos, ch);
    ReadIntAt(data, p8, idx, p12);
  }

  /** An object of a known class reads back into that class, with the values
      written for it. */
  lemma {:induction false} KnownClassRoundTrip(data: Bytes, pos: nat, idx: int32, vs: seq<Value>, classes: seq<ObjectDefinition>, objType: int32, end: nat)
    requires 0 <= idx as int < |classes|
    requires Matches(classes[idx as int].props, vs)
    requires At(data, pos, ObjectChunk(I32(idx) + EncodeValues(vs))) && end == pos + 12 + |EncodeValues(vs)|
    ensures NextChunk(data, pos, classes, objType) ==
      Ok(Next(true, end, classes[idx as int := ObjectDefinition(classes[idx as int].className, Filled(classes[idx as int].props, vs))], idx))
  {
    var p8 := pos + 8;
    var p12 := pos + 12;
    ObjectChunkAt(data, pos, idx, vs, p8, p12);
    ReadValuesAt(data, p12, classes[idx as int].props, vs, end);
    ObjectStep(data, pos, ToUint32(|I32(idx) + EncodeValues(vs)|), idx, classes, objType, Filled(classes[idx as int].props, vs), p8, p12, end);
  }

  /** A definition chunk as written adds its class and is passed over whole. */
  lemma {:induction false} DefinitionChunkAt(data: Bytes, pos: nat, od: ObjectDefinition, obj: Bytes, classes: seq<ObjectDefinition>, objType: int32, p: nat)
    requires DefinitionFits(od) && Blank(od.props)
    requires At(data, pos, DefinitionChunk(od) + obj) && p == pos + |DefinitionChunk(od)|
    ensures NextChunk(data, pos, classes, objType) == NextChunk(data, p, classes + [od], objType)
    ensures At(data, p, obj)
  {
    var ch := ChunkHeader(CHUNK_OBJDEF, ToUint32(|DefinitionPayload(od)|));
    var p8 := pos + 8;
    assert DefinitionChunk(od) + obj == EncodeChunkHeader(ch) + DefinitionPayload(od) + obj;
    AtThree(data, pos, EncodeChunkHeader(ch), DefinitionPayload(od), obj, p8, p);
    ReadChunkHeaderAt(data, pos, ch);
    ReadDefinitionAt(data, p8, od, p);
    DefinitionStep(data, pos, ch.chunkSize, od, p8, p, classes, objType);
  }

  /** The first object of a new class: its definition chunk, then its object
      chunk (whose class index is the class count), read back as one more
      class holding the object's values. */
  lemma {:induction false} NewClassRoundTrip(data: Bytes, pos: nat, od: ObjectDefinition, vs: seq<Value>, classes: seq<ObjectDefinition>, objType: int32, end: nat)
    requires DefinitionFits(od) && Blank(od.props) && Matches(od.props, vs)
    requires |classes| < TWO31
    requires At(data, pos, DefinitionChunk(od) + ObjectChunk(I32(ToInt32(|classes|)) + EncodeValues(vs)))
    requires end == pos + |DefinitionChunk(od)| + 12 + |EncodeValues(vs)|
    ensures NextChunk(data, pos, classes, objType) ==
      Ok(Next(true, end, classes + [ObjectDefinition(od.className, Filled(od.props, vs))], ToInt32(|classes|)))
  {
    var p := pos + |DefinitionChunk(od)|;
    DefinitionChunkAt(data, pos, od, ObjectChunk(I32(ToInt32(|classes|)) + EncodeValues(vs)), classes, objType, p);
    LastClassObject(data, p, od, vs, classes, objType, end);
  }

  /** An object of the class defined last: its values go into that class. */
  lemma {:induction false} LastClassObject(data: Bytes, pos: nat, od: ObjectDefinition, vs: seq<Value>, classes: seq<ObjectDefinition>, objType: int32, end: nat)
    requires Matches(od.props, vs) && |classes| < TWO31
    requires At(data, pos, ObjectChunk(I32(ToInt32(|classes|)) + EncodeValues(vs))) && end == pos + 12 + |EncodeValues(vs)|
    ensures NextChunk(data, pos, classes + [od], objType) ==
      Ok(Next(true, end, classes + [ObjectDefinition(od.className, Filled(od.props, vs))], ToInt32(|classes|)))
  {
    var idx := ToInt32(|classes|);
    var more := classes + [od];
    assert more[idx as int] == od;
    KnownClassRoundTrip(data, pos, idx, vs, more, objType, end);
    assert more[idx as int := ObjectDefinition(od.className, Filled(od.props, vs))] == classes + [ObjectDefinition(od.className, Filled(od.props, vs))];
  }

  // ---- getObjectAttribute and the MAP_EXCHANGE macros ------------------------------------

  /** std::find_if by name: the first property called `name`. */
  function FindProperty(ps: seq<Property>, name: Bytes): (r: Option<nat>)
    ensures r.None? <==> forall i :: 0 <= i < |ps| ==> ps[i].name != name
    ensures r.Some? ==> r.value < |ps| && ps[r.value].name == name
    ensures r.Some? ==> forall j :: 0 <= j < r.value ==> ps[j].name != name
    decreases |ps|
  {
    if |ps| == 0 then None
    else if ps[0].name == name then Some(0)
    else
      match FindProperty(ps[1..], name)
      case None => None
      case Some(k) => Some(k + 1)
  }

  /** getObjectAttribute for a requested type: the value of the first
      property of that name, nothing when there is none, and the
      bad_variant_access of std::get when its type is another. */
  function GetObjectAttribute(ps: seq<Property>, name: Bytes, t: int32): (r: Result<Option<Value>, Error>)
    ensures r == Ok(None) <==> forall i :: 0 <= i < |ps| ==> ps[i].name != name
    ensures r.Ok? && r.value.Some? ==>
      exists i :: 0 <= i < |ps| && ps[i].name == name && ps[i].value == r.value.value && r.value.value.TypeCode() == t
    ensures r.Err? ==> r.error == BadVariantAccess
    ensures r.Err? ==> exists i :: 0 <= i < |ps| && ps[i].name == name && ps[i].value.TypeCode() != t
  {
    match FindProperty(ps, name)
    case None => Ok(None)
    case Some(i) => if ps[i].value.TypeCode() == t then Ok(Some(ps[i].value)) else Err(BadVariantAccess)
  }

  /** The loading half of MAP_EXCHANGE_INT/FLOAT/STRING: the attribute's
      value when present, the default otherwise. */
  function ExchangeLoad(ps: seq<Property>, name: Bytes, default: Value): Result<Value, Error>
  {
    var got :- GetObjectAttribute(ps, name, default.TypeCode());
    Ok(got.GetOr(default))
  }

  lemma {:induction false} ExchangeLoadAbsent(ps: seq<Property>, name: Bytes, default: Value)
    requires forall i :: 0 <= i < |ps| ==> ps[i].name != name
    ensures ExchangeLoad(ps, name, default) == Ok(default)
  {
  }

  lemma {:induction false} ExchangeLoadPresent(ps: seq<Property>, i: nat, default: Value)
    requires i < |ps| && ps[i].value.TypeCode() == default.TypeCode()
    requires forall j :: 0 <= j < i ==> ps[j].name != ps[i].name
    ensures ExchangeLoad(ps, ps[i].name, default) == Ok(ps[i].value)
  {
    var k := FindProperty(ps, ps[i].name);
    assert k.Some?;
  }

  /** After an object was read, every property of its class (the first of
      its name) answers with the value written for it. */
  lemma {:induction false} GetAfterRead(ps: seq<Property>, vs: seq<Value>, i: nat)
    requires Matches(ps, vs) && i < |ps|
    requires forall j :: 0 <= j < i ==> ps[j].name != ps[i].name
    ensures GetObjectAttribute(Filled(ps, vs), ps[i].name, vs[i].TypeCode()) == Ok(Some(Stored(vs[i])))
  {
    var f := Filled(ps, vs);
    var k := FindProperty(f, ps[i].name);
    assert f[i].name == ps[i].name;
    assert k.Some?;
  }

  // ---- the header --------------------------------------------------------------------------

  /** The map attributes: one std::map per data type. */
  datatype AttributeSet = AttributeSet(ints: Entries<int32>, floats: Entries<uint32>, strs: Entries<Bytes>)
  {
    ghost predicate Valid() {
      Sorted(ints) && Sorted(floats) && Sorted(strs)
    }
  }

  const NoAttributes := AttributeSet([], [], [])

  /** setMapAttribute: sets the name in the map of the value's type. */
  function SetAttr(a: AttributeSet, name: Bytes, v: Value): AttributeSet
  {
    match v
    case IntVal(i) => a.(ints := Insert(a.ints, name, i))
    case FloatVal(bits) => a.(floats := Insert(a.floats, name, bits))
    case StrVal(s) => a.(strs := Insert(a.strs, name, s))
  }

  /** getMapAttribute for a type: the value, or nothing when the name is not set. */
  function GetAttr(a: AttributeSet, name: Bytes, t: int32): (r: Option<Value>)
    requires IsDataType(t)
    ensures r.Some? ==> r.value.TypeCode() == t
    ensures t == DATATYPE_INT ==> (r.None? <==> name !in Keys(a.ints))
    ensures t == DATATYPE_FLOAT ==> (r.None? <==> name !in Keys(a.floats))
    ensures t == DATATYPE_STRING ==> (r.None? <==> name !in Keys(a.strs))
  {
    if t == DATATYPE_INT then
      match Lookup(a.ints, name) case Some(i) => Some(IntVal(i)) case None => None
    else if t == DATATYPE_FLOAT then
      match Lookup(a.floats, name) case Some(f) => Some(FloatVal(f)) case None => None
    else
      match Lookup(a.strs, name) case Some(s) => Some(StrVal(s)) case None => None
  }

  lemma {:induction false} SetAttrValid(a: AttributeSet, name: Bytes, v: Value)
    requires a.Valid()
    ensures SetAttr(a, name, v).Valid()
  {
    match v
    case IntVal(i) => InsertSorted(a.ints, name, i);
    case FloatVal(bits) => InsertSorted(a.floats, name, bits);
    case StrVal(s) => InsertSorted(a.strs, name, s);
  }

  /** getMapAttribute after setMapAttribute of the same name and type gives the value set. */
  lemma {:induction false} GetSetSame(a: AttributeSet, name: Bytes, v: Value)
    ensures GetAttr(SetAttr(a, name, v), name, v.TypeCode()) == Some(v)
  {
    match v
    case IntVal(i) => LookupInsertSame(a.ints, name, i);
    case FloatVal(bits) => LookupInsertSame(a.floats, name, bits);
    case StrVal(s) => LookupInsertSame(a.strs, name, s);
  }

  /** ... and every other name or type answers as before. */
  lemma {:induction false} GetSetOther(a: AttributeSet, name: Bytes, v: Value, name2: Bytes, t: int32)
    requires IsDataType(t) && (name2 != name || t != v.TypeCode())
    ensures GetAttr(SetAttr(a, name, v), name2, t) == GetAttr(a, name2, t)
  {
    match v
    case IntVal(i) => if name2 != name { LookupInsertOther(a.ints, name, i, name2); }
    case FloatVal(bits) => if name2 != name { LookupInsertOther(a.floats, name, bits, name2); }
    case StrVal(s) => if name2 != name { LookupInsertOther(a.strs, name, s, name2); }
  }

  type Attrs = seq<(Bytes, Value)>

  function IntAttrs(m: Entries<int32>): (l: Attrs)
    ensures |l| == |m|
  {
    seq(|m|, i requires 0 <= i < |m| => (m[i].0, IntVal(m[i].1)))
  }

  function FloatAttrs(m: Entries<uint32>): (l: Attrs)
    ensures |l| == |m|
  {
    seq(|m|, i requires 0 <= i < |m| => (m[i].0, FloatVal(m[i].1)))
  }

  function StrAttrs(m: Entries<Bytes>): (l: Attrs)
    ensures |l| == |m|
  {
    seq(|m|, i requires 0 <= i < |m| => (m[i].0, StrVal(m[i].1)))
  }

  /** setMapAttribute for each entry, in order. */
  function SetAll(a: AttributeSet, l: Attrs): AttributeSet
    decreases |l|
  {
    if |l| == 0 then a else SetAll(SetAttr(a, l[0].0, l[0].1), l[1..])
  }

  lemma {:induction false} SetAllInts(a: AttributeSet, m: Entries<int32>)
    ensures SetAll(a, IntAttrs(m)) == a.(ints := InsertAll(a.ints, m))
    decreases |m|
  {
    if |m| > 0 {
      assert IntAttrs(m)[1..] == IntAttrs(m[1..]);
      SetAllInts(SetAttr(a, m[0].0, IntVal(m[0].1)), m[1..]);
    }
  }

  lemma {:induction false} SetAllFloats(a: AttributeSet, m: Entries<uint32>)
    ensures SetAll(a, FloatAttrs(m)) == a.(floats := InsertAll(a.floats, m))
    decreases |m|
  {
    if |m| > 0 {
      assert FloatAttrs(m)[1..] == FloatAttrs(m[1..]);
      SetAllFloats(SetAttr(a, m[0].0, FloatVal(m[0].1)), m[1..]);
    }
  }

  lemma {:induction false} SetAllStrs(a: AttributeSet, m: Entries<Bytes>)
    ensures SetAll(a, StrAttrs(m)) == a.(strs := InsertAll(a.strs, m))
    decreases |m|
  {
    if |m| > 0 {
      assert StrAttrs(m)[1..] == StrAttrs(m[1..]);
      SetAllStrs(SetAttr(a, m[0].0, StrVal(m[0].1)), m[1..]);
    }
  }

  predicate AttrWritable(name: Bytes, v: Value) {
    |name| < TWO16 && v.Writable()
  }

  predicate AllWritable(l: Attrs)
    decreases |l|
  {
    |l| == 0 || (AttrWritable(l[0].0, l[0].1) && AllWritable(l[1..]))
  }

  predicate HeaderWritable(a: AttributeSet) {
    AllWritable(IntAttrs(a.ints)) && AllWritable(FloatAttrs(a.floats)) && AllWritable(StrAttrs(a.strs))
  }

  /** The chunk size WriteHeader gives an attribute, in `uint32_t`
      arithmetic: the name's length plus two, plus four for an int or a
      float, or plus the string's length and two for a string. */
  function AttrSize(name: Bytes, v: Value): uint32
  {
    match v
    case StrVal(s) => ToUint32((|name| + |s|) % TWO32 + 4)
    case _ => ToUint32(|name| % TWO32 + 6)
  }

  /** The length of an "attr" chunk as written, header included. */
  function AttrLen(x: (Bytes, Value)): nat
  {
    14 + |x.0| % TWO16 + ValueLen(x.1)
  }

  /** One "attr" chunk: header, type code, name, value. */
  function AttrChunk(name: Bytes, v: Value): (b: Bytes)
    ensures |b| == AttrLen((name, v))
  {
    EncodeChunkHeader(ChunkHeader(CHUNK_ATTRIB, AttrSize(name, v))) + I32(v.TypeCode()) + Str(name) + EncodeValue(v)
  }

  /** For an attribute within WriteString's limits, the size field counts
      exactly the bytes of the chunk after its header and type code. */
  lemma {:induction false} AttrSizeCounts(name: Bytes, v: Value)
    requires AttrWritable(name, v)
    ensures AttrSize(name, v) as int == |AttrChunk(name, v)| - 12
  {
    assert |name| % TWO16 == |name|;
    if v.StrVal? {
      assert |v.s| % TWO16 == |v.s|;
      assert (|name| + |v.s|) % TWO32 == |name| + |v.s|;
    } else {
      assert |name| % TWO32 == |name|;
    }
  }

  function AttrChunks(l: Attrs): Bytes
    decreases |l|
  {
    if |l| == 0 then [] else AttrChunk(l[0].0, l[0].1) + AttrChunks(l[1..])
  }

  lemma {:induction false} AttrChunksSnoc(l: Attrs, x: (Bytes, Value))
    ensures AttrChunks(l + [x]) == AttrChunks(l) + AttrChunk(x.0, x.1)
    decreases |l|
  {
    if |l| > 0 {
      assert (l + [x])[1..] == l[1..] + [x];
      AttrChunksSnoc(l[1..], x);
    } else {
      assert AttrChunks([x][1..]) == [];
    }
  }

  const OpenHeader := ChunkHeader(CHUNK_HEADER_OPEN, 0)
  const CloseHeader := ChunkHeader(CHUNK_HEADER_CLOSE, 0)

  /** What WriteHeader writes: "hdr{", the int, float and string attributes
      in key order, "}hdr". */
  function HeaderBytes(a: AttributeSet): Bytes
  {
    EncodeChunkHeader(OpenHeader) + AttrChunks(IntAttrs(a.ints)) + AttrChunks(FloatAttrs(a.floats))
      + AttrChunks(StrAttrs(a.strs)) + EncodeChunkHeader(CloseHeader)
  }

  /** The body of the header loop after a chunk header `ch` was read and
      `pos` is just past it: the position after the chunk and the attribute
      to set, if any.  An attribute of a supported type is read whole; one of
      another type skips chunkSize - 4 bytes (size_t arithmetic); any other
      chunk skips chunkSize bytes. */
  function AttribBody(data: Bytes, pos: nat, ch: ChunkHeader): (r: Result<(nat, Option<(Bytes, Value)>), Error>)
    ensures r.Ok? ==> pos <= r.value.0
    ensures r.Ok? && r.value.1.Some? ==> ch.chunkType == CHUNK_ATTRIB && r.value.1.value.1.Writable()
  {
    if ch.chunkType == CHUNK_ATTRIB then
      var t :- ReadInt(data, pos);
      if !IsDataType(t.0) then Ok((t.1 + (ch.chunkSize as int - 4) % TWO64, None))
      else
        var name :- ReadString(data, t.1);
        var v :- ReadValue(data, name.1, t.0);
        Ok((v.1, Some((name.0, v.0))))
    else
      Ok((pos + ch.chunkSize as int, None))
  }

  function Record(read: Attrs, attr: Option<(Bytes, Value)>): Attrs
  {
    match attr
    case None => read
    case Some(x) => read + [x]
  }

  /** The header loop, up to and including "}hdr": where it stops and the
      attributes it set, in order.  A chunk header that cannot be read is
      "unexpected end of file". */
  function ParseHeaderChunks(data: Bytes, pos: nat, read: Attrs): Result<(nat, Attrs), Error>
    decreases |data| - pos, 2
  {
    if pos + 8 <= |data| then HeaderChunk(data, pos, read) else Err(UnexpectedEof)
  }

  /** One pass of the header loop over the chunk whose header is at `pos`. */
  function HeaderChunk(data: Bytes, pos: nat, read: Attrs): Result<(nat, Attrs), Error>
    requires pos + 8 <= |data|
    decreases |data| - pos, 1
  {
    HeaderChunkBody(data, pos, ReadChunkHeader(data, pos).value, read)
  }

  /** The rest of one pass of the header loop, once the chunk header `ch`
      at `pos` was read. */
  function HeaderChunkBody(data: Bytes, pos: nat, ch: ChunkHeader, read: Attrs): Result<(nat, Attrs), Error>
    requires pos + 8 <= |data|
    decreases |data| - pos, 0
  {
    var r :- AttribBody(data, pos + 8, ch);
    if ch.chunkType == CHUNK_HEADER_CLOSE then Ok((r.0, Record(read, r.1)))
    else ParseHeaderChunks(data, r.0, Record(read, r.1))
  }

  /** The read-mode constructor: the first chunk must be "hdr{" (its size is
      not skipped), then the header loop, whose attributes are set one by one. */
  function ParseHeader(data: Bytes): Result<(nat, AttributeSet), Error>
  {
    match ReadChunkHeader(data, 0)
    case None => Err(InvalidFile)
    case Some(ch) =>
      if ch.chunkType != CHUNK_HEADER_OPEN then Err(InvalidFile)
      else
        var r :- ParseHeaderChunks(data, 8, []);
        Ok((r.0, SetAll(NoAttributes, r.1)))
  }

  /** An "attr" chunk as the writer lays it out reads back as its header
      and then its attribute, ending where the chunk ends. */
  lemma {:induction false} AttribBodyAt(data: Bytes, pos: nat, name: Bytes, v: Value, end: nat)
    requires AttrWritable(name, v) && At(data, pos, AttrChunk(name, v)) && end == pos + AttrLen((name, v))
    ensures ReadChunkHeader(data, pos) == Some(ChunkHeader(CHUNK_ATTRIB, AttrSize(name, v)))
    ensures AttribBody(data, pos + 8, ChunkHeader(CHUNK_ATTRIB, AttrSize(name, v))) == Ok((end, Some((name, v))))
  {
    var ch := ChunkHeader(CHUNK_ATTRIB, AttrSize(name, v));
    var h := EncodeChunkHeader(ch);
    var t := I32(v.TypeCode());
    var p8 := pos + 8;
    var p12 := pos + 12;
    var p2 := p12 + |Str(name)|;
    AtSplit(data, pos, h + t + Str(name), EncodeValue(v), p2);
    AtThree(data, pos, h, t, Str(name), p8, p12);
    ReadChunkHeaderAt(data, pos, ch);
    ReadIntAt(data, p8, v.TypeCode(), p12);
    ReadStringAt(data, p12, name, p2);
    ReadValueAt(data, p2, v, end);
  }

  /** One pass of the header loop over a chunk other than "}hdr". */
  lemma {:induction false} HeaderStep(data: Bytes, pos: nat, ch: ChunkHeader, read: Attrs, next: nat, attr: Option<(Bytes, Value)>)
    requires ReadChunkHeader(data, pos) == Some(ch) && ch.chunkType != CHUNK_HEADER_CLOSE
    requires AttribBody(data, pos + 8, ch) == Ok((next, attr))
    ensures ParseHeaderChunks(data, pos, read) == ParseHeaderChunks(data, next, Record(read, attr))
  {
    assert ParseHeaderChunks(data, pos, read) == HeaderChunk(data, pos, read);
  }

  /** The header loop sets the attribute of an "attr" chunk and goes on after it. */
  lemma {:induction false} ParseAttrChunk(data: Bytes, pos: nat, x: (Bytes, Value), read: Attrs, end: nat)
    requires AttrWritable(x.0, x.1) && At(data, pos, AttrChunk(x.0, x.1)) && end == pos + AttrLen(x)
    ensures ParseHeaderChunks(data, pos, read) == ParseHeaderChunks(data, end, read + [x])
  {
    AttribBodyAt(data, pos, x.0, x.1, end);
    HeaderStep(data, pos, ChunkHeader(CHUNK_ATTRIB, AttrSize(x.0, x.1)), read, end, Some(x));
  }

  lemma {:induction false} AttrChunksSplit(data: Bytes, pos: nat, l: Attrs, p: nat)
    requires |l| > 0 && At(data, pos, AttrChunks(l)) && p == pos + AttrLen(l[0])
    ensures At(data, pos, AttrChunk(l[0].0, l[0].1))
    ensures At(data, p, AttrChunks(l[1..]))
    ensures |AttrChunks(l)| == AttrLen(l[0]) + |AttrChunks(l[1..])|
  {
    assert AttrChunks(l) == AttrChunk(l[0].0, l[0].1) + AttrChunks(l[1..]);
    AtSplit(data, pos, AttrChunk(l[0].0, l[0].1), AttrChunks(l[1..]), p);
  }

  lemma {:induction false} AppendHead<T>(read: seq<T>, l: seq<T>)
    requires |l| > 0
    ensures read + l == (read + [l[0]]) + l[1..]
  {
    assert l == [l[0]] + l[1..];
  }

  /** The header loop sets the attributes of consecutive "attr" chunks in order. */
  lemma {:induction false} ParseAttrChunks(data: Bytes, pos: nat, l: Attrs, read: Attrs, end: nat, final: Attrs)
    requires AllWritable(l) && At(data, pos, AttrChunks(l))
    requires end == pos + |AttrChunks(l)| && final == read + l
    ensures ParseHeaderChunks(data, pos, read) == ParseHeaderChunks(data, end, final)
    decreases |l|
  {
    if |l| > 0 {
      var p := pos + AttrLen(l[0]);
      AttrChunksSplit(data, pos, l, p);
      ParseAttrChunk(data, pos, l[0], read, p);
      AppendHead(read, l);
      ParseAttrChunks(data, p, l[1..], read + [l[0]], end, final);
    } else {
      assert final == read;
    }
  }

  /** The int, float and string attribute chunks one after another from
      offset 8: the header loop sets all of them, in that order. */
  lemma {:induction false} ParseAttrLists(data: Bytes, li: Attrs, lf: Attrs, ls: Attrs, p1: nat, p2: nat, pc: nat)
    requires AllWritable(li) && AllWritable(lf) && AllWritable(ls)
    requires p1 == 8 + |AttrChunks(li)| && p2 == p1 + |AttrChunks(lf)| && pc == p2 + |AttrChunks(ls)|
    requires At(data, 8, AttrChunks(li)) && At(data, p1, AttrChunks(lf)) && At(data, p2, AttrChunks(ls))
    ensures ParseHeaderChunks(data, 8, []) == ParseHeaderChunks(data, pc, li + lf + ls)
  {
    assert [] + li == li;
    ParseAttrChunks(data, 8, li, [], p1, li);
    ParseAttrChunks(data, p1, lf, li, p2, li + lf);
    ParseAttrChunks(data, p2, ls, li + lf, pc, li + lf + ls);
  }

  lemma {:induction false} SetAllConcat(a: AttributeSet, l1: Attrs, l2: Attrs)
    ensures SetAll(a, l1 + l2) == SetAll(SetAll(a, l1), l2)
    decreases |l1|
  {
    if |l1| > 0 {
      assert (l1 + l2)[1..] == l1[1..] + l2;
      SetAllConcat(SetAttr(a, l1[0].0, l1[0].1), l1[1..], l2);
    } else {
      assert l1 + l2 == l2;
    }
  }

  /** Setting the attributes in the order WriteHeader writes them rebuilds the set. */
  lemma {:induction false} SetAllRebuilds(a: AttributeSet)
    requires a.Valid()
    ensures SetAll(NoAttributes, IntAttrs(a.ints) + FloatAttrs(a.floats) + StrAttrs(a.strs)) == a
  {
    SetAllConcat(NoAttributes, IntAttrs(a.ints) + FloatAttrs(a.floats), StrAttrs(a.strs));
    SetAllConcat(NoAttributes, IntAttrs(a.ints), FloatAttrs(a.floats));
    SetAllInts(NoAttributes, a.ints);
    var a1 := NoAttributes.(ints := InsertAll([], a.ints));
    SetAllFloats(a1, a.floats);
    var a2 := a1.(floats := InsertAll([], a.floats));
    SetAllStrs(a2, a.strs);
    assert [] + a.ints == a.ints && [] + a.floats == a.floats && [] + a.strs == a.strs;
    InsertAllSorted([], a.ints);
    InsertAllSorted([], a.floats);
    InsertAllSorted([], a.strs);
  }

  /** A stream opening with "hdr{" whose header loop reaches a "}hdr" chunk
      at `close` after setting `read`. */
  lemma {:induction false} HeaderFromTrace(data: Bytes, close: nat, read: Attrs, end: nat)
    requires ReadChunkHeader(data, 0) == Some(OpenHeader)
    requires ParseHeaderChunks(data, 8, []) == ParseHeaderChunks(data, close, read)
    requires ReadChunkHeader(data, close) == Some(CloseHeader) && end == close + 8
    ensures ParseHeader(data) == Ok((end, SetAll(NoAttributes, read)))
  {
    assert ParseHeaderChunks(data, close, read) == HeaderChunk(data, close, read);
  }

  /** Where the five pieces of a written header lie in the stream. */
  lemma {:induction false} HeaderLayout(o: Bytes, ci: Bytes, cf: Bytes, cs: Bytes, c: Bytes, rest: Bytes, p1: nat, p2: nat, pc: nat)
    requires p1 == |o| + |ci| && p2 == p1 + |cf| && pc == p2 + |cs|
    ensures var data := o + ci + cf + cs + c + rest;
      At(data, 0, o) && At(data, |o|, ci) && At(data, p1, cf) && At(data, p2, cs) && At(data, pc, c)
  {
    var data := o + ci + cf + cs + c + rest;
    assert data == [] + (o + ci + cf + cs + c) + rest;
    AtWhole([], o + ci + cf + cs + c, rest);
    AtConcat(data, 0, o + ci + cf + cs, c);
    AtConcat(data, 0, o + ci + cf, cs);
    AtThree(data, 0, o, ci, cf, |o|, p1);
  }

  /** A stream laid out as "hdr{", three runs of attribute chunks and
      "}hdr" reads as the attributes of the three runs, set in order. */
  lemma {:induction false} HeaderParsed(data: Bytes, li: Attrs, lf: Attrs, ls: Attrs, p1: nat, p2: nat, pc: nat, end: nat)
    requires AllWritable(li) && AllWritable(lf) && AllWritable(ls)
    requires p1 == 8 + |AttrChunks(li)| && p2 == p1 + |AttrChunks(lf)| && pc == p2 + |AttrChunks(ls)| && end == pc + 8
    requires At(data, 0, EncodeChunkHeader(OpenHeader)) && At(data, pc, EncodeChunkHeader(CloseHeader))
    requires At(data, 8, AttrChunks(li)) && At(data, p1, AttrChunks(lf)) && At(data, p2, AttrChunks(ls))
    ensures ParseHeader(data) == Ok((end, SetAll(NoAttributes, li + lf + ls)))
  {
    ParseAttrLists(data, li, lf, ls, p1, p2, pc);
    ReadChunkHeaderAt(data, 0, OpenHeader);
    ReadChunkHeaderAt(data, pc, CloseHeader);
    HeaderFromTrace(data, pc, li + lf + ls, end);
  }

  /** Reading a written header gives back the attributes and stops right
      after "}hdr". */
  lemma {:induction false} HeaderRoundTrip(a: AttributeSet, rest: Bytes)
    requires a.Valid() && HeaderWritable(a)
    ensures ParseHeader(HeaderBytes(a) + rest) == Ok((|HeaderBytes(a)|, a))
  {
    var li := IntAttrs(a.ints);
    var lf := FloatAttrs(a.floats);
    var ls := StrAttrs(a.strs);
    var o := EncodeChunkHeader(OpenHeader);
    var c := EncodeChunkHeader(CloseHeader);
    var p1 := 8 + |AttrChunks(li)|;
    var p2 := p1 + |AttrChunks(lf)|;
    var pc := p2 + |AttrChunks(ls)|;
    assert HeaderBytes(a) == o + AttrChunks(li) + AttrChunks(lf) + AttrChunks(ls) + c;
    HeaderLayout(o, AttrChunks(li), AttrChunks(lf), AttrChunks(ls), c, rest, p1, p2, pc);
    HeaderParsed(HeaderBytes(a) + rest, li, lf, ls, p1, p2, pc, |HeaderBytes(a)|);
    SetAllRebuilds(a);
  }

  /** The header loop as written, one pass: a chunk header that cannot be
      read leaves the previous header in `ch` and the position where it
      was, and the pass runs on that stale header. */
  datatype HeaderPass = Continue(pos: nat, ch: ChunkHeader, read: Attrs) | Done(end: nat, result: Attrs) | Fail(error: Error)

  function HeaderPassAsWritten(data: Bytes, pos: nat, ch: ChunkHeader, read: Attrs): HeaderPass
  {
    var got := ReadChunkHeader(data, pos);
    var cur := got.GetOr(ch);
    var p := if got.Some? then pos + 8 else pos;
    match AttribBody(data, p, cur)
    case Err(e) => Fail(e)
    case Ok(r) =>
      if cur.chunkType == CHUNK_HEADER_CLOSE then Done(r.0, Record(read, r.1))
      else Continue(r.0, cur, Record(read, r.1))
  }

  /** A stream of exactly one empty "hdr{" chunk, whatever its bytes. */
  lemma {:induction false} OpenHeaderAlone(data: Bytes)
    requires ReadChunkHeader(data, 0) == Some(OpenHeader) && |data| == 8
    ensures ParseHeader(data) == Err(UnexpectedEof)
    ensures HeaderPassAsWritten(data, 8, OpenHeader, []) == Continue(8, OpenHeader, [])
  {
    assert ReadChunkHeader(data, 8).None?;
  }

  /** A chunk header alone in a stream reads back. */
  lemma {:induction false} ChunkHeaderAlone(ch: ChunkHeader)
    ensures ReadChunkHeader(EncodeChunkHeader(ch), 0) == Some(ch)
    ensures |EncodeChunkHeader(ch)| == 8
  {
    var data := EncodeChunkHeader(ch);
    assert [] + data + [] == data;
    AtWhole([], data, []);
    ReadChunkHeaderAt(data, 0, ch);
  }

  /** A stream holding only an empty "hdr{" chunk: as written, the header
      loop comes back to the state it started from, so it never ends; the
      corrected loop reports the missing end of the header. */
  lemma {:induction false} TruncatedHeaderLoopsForever()
    ensures ParseHeader(EncodeChunkHeader(OpenHeader)) == Err(UnexpectedEof)
    ensures HeaderPassAsWritten(EncodeChunkHeader(OpenHeader), 8, OpenHeader, []) == Continue(8, OpenHeader, [])
  {
    ChunkHeaderAlone(OpenHeader);
    OpenHeaderAlone(EncodeChunkHeader(OpenHeader));
  }
}
