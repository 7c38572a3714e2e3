/*
  The MapFile object of game/src/mf/MapFile.cpp: a stream it appends to (in
  write mode) or reads through with a cursor (in read mode), the map
  attributes, the known object classes, the class-name index and the buffer
  in which the current object's values are collected before they are
  written.  The chunk loops run in methods of their own over the stream's
  bytes, each proved to compute the reader function of map_format.dfy that
  states what the loop reads.
*/
module MapFiles {
  import opened Wrappers
  import opened MapCodec
  import opened ByteMap
  import opened MapFormat

  /** A result with `acc` put in front of the list it carries. */
  function Prepend<T>(acc: seq<T>, r: Result<(seq<T>, nat), Error>): Result<(seq<T>, nat), Error>
  {
    match r
    case Ok(x) => Ok((acc + x.0, x.1))
    case Err(e) => Err(e)
  }

  lemma {:induction false} PrependNil<T>(r: Result<(seq<T>, nat), Error>)
    ensures Prepend([], r) == r
  {
    if r.Ok? {
      assert [] + r.value.0 == r.value.0;
    }
  }

  lemma {:induction false} Append3<T>(a: seq<T>, b: seq<T>, c: seq<T>)
    ensures (a + b) + c == a + (b + c)
  {
  }

  lemma {:induction false} HeaderAppended<T>(s: seq<T>, o: seq<T>, a: seq<T>, b: seq<T>, c: seq<T>, e: seq<T>)
    ensures s + o + a + b + c + e == s + (o + a + b + c + e)
  {
  }

  lemma {:induction false} PrependAssoc<T>(acc: seq<T>, x: T, r: Result<(seq<T>, nat), Error>)
    ensures Prepend(acc, Prepend([x], r)) == Prepend(acc + [x], r)
  {
    if r.Ok? {
      assert acc + ([x] + r.value.0) == (acc + [x]) + r.value.0;
    }
  }

  // ---- the property loop of a definition chunk ------------------------------------------

  /** One property definition read: the rest of the loop starts after it. */
  lemma {:induction false} PropDefStep(data: Bytes, p: nat, left: nat, acc: seq<Property>, t: (int32, nat), name: (Bytes, nat))
    requires left > 0 && IsDataType(t.0)
    requires ReadInt(data, p) == Ok(t) && ReadString(data, t.1) == Ok(name)
    ensures Prepend(acc, ReadPropDefs(data, p, left)) ==
      Prepend(acc + [Property(name.0, NewProperty(t.0).value)], ReadPropDefs(data, name.1, left - 1))
  {
    var x := Property(name.0, NewProperty(t.0).value);
    assert ReadPropDefs(data, p, left) == Prepend([x], ReadPropDefs(data, name.1, left - 1));
    PrependAssoc(acc, x, ReadPropDefs(data, name.1, left - 1));
  }

  /** The `for (auto &prop : od.propertyDefinitions)` loop of NextObject:
      a type code and a name per property, "invalid file" for a type code
      that is no data type. */
  method ReadPropDefsLoop(data: Bytes, pos: nat, n: nat) returns (r: Result<(seq<Property>, nat), Error>)
    ensures r == ReadPropDefs(data, pos, n)
  {
    var acc: seq<Property> := [];
    var p := pos;
    var left := n;
    PrependNil(ReadPropDefs(data, pos, n));
    while left > 0
      invariant ReadPropDefs(data, pos, n) == Prepend(acc, ReadPropDefs(data, p, left))
    {
      var t := ReadInt(data, p);
      if t.Err? {
        return Err(t.error);
      }
      var name := ReadString(data, t.value.1);
      if name.Err? {
        return Err(name.error);
      }
      if !IsDataType(t.value.0) {
        return Err(InvalidFile);
      }
      PropDefStep(data, p, left, acc, t.value, name.value);
      acc := acc + [Property(name.value.0, NewProperty(t.value.0).value)];
      p := name.value.1;
      left := left - 1;
    }
    assert acc + [] == acc;
    r := Ok((acc, p));
  }

  /** The "dfn:" case of NextObject: class name, property count, properties. */
  method ReadDefinitionChunk(data: Bytes, pos: nat) returns (r: Result<(ObjectDefinition, nat), Error>)
    ensures r == ReadDefinition(data, pos)
  {
    var name := ReadString(data, pos);
    if name.Err? {
      return Err(name.error);
    }
    var count := ReadInt(data, name.value.1);
    if count.Err? {
      return Err(count.error);
    }
    if count.value.0 < 0 {
      return Err(LengthError);
    }
    var ps := ReadPropDefsLoop(data, count.value.1, count.value.0 as nat);
    if ps.Err? {
      return Err(ps.error);
    }
    r := Ok((ObjectDefinition(name.value.0, ps.value.0), ps.value.1));
  }

  // ---- the value loop of an object chunk -------------------------------------------------

  lemma {:induction false} ValueStep(data: Bytes, p: nat, ps: seq<Property>, i: nat, acc: seq<Property>, v: (Value, nat))
    requires i < |ps| && ReadValue(data, p, ps[i].value.TypeCode()) == Ok(v)
    ensures Prepend(acc, ReadValues(data, p, ps[i..])) ==
      Prepend(acc + [Property(ps[i].name, v.0)], ReadValues(data, v.1, ps[i + 1..]))
  {
    var x := Property(ps[i].name, v.0);
    assert ps[i..][1..] == ps[i + 1..];
    assert ReadValues(data, p, ps[i..]) == Prepend([x], ReadValues(data, v.1, ps[i + 1..]));
    PrependAssoc(acc, x, ReadValues(data, v.1, ps[i + 1..]));
  }

  /** The `for (auto &prop : propertyDefinitions)` loop of the "obj:" case:
      each property's value is read in place, by the property's type. */
  method ReadObjectValues(data: Bytes, pos: nat, ps: seq<Property>) returns (r: Result<(seq<Property>, nat), Error>)
    ensures r == ReadValues(data, pos, ps)
  {
    var out := ps;
    var p := pos;
    var i := 0;
    PrependNil(ReadValues(data, pos, ps));
    while i < |out|
      invariant 0 <= i <= |out| == |ps|
      invariant out[i..] == ps[i..]
      invariant ReadValues(data, pos, ps) == Prepend(out[..i], ReadValues(data, p, ps[i..]))
    {
      assert out[i] == ps[i..][0];
      var v := ReadValue(data, p, out[i].value.TypeCode());
      if v.Err? {
        return Err(v.error);
      }
      ValueStep(data, p, ps, i, out[..i], v.value);
      ghost var done := out[..i];
      out := out[i := Property(out[i].name, v.value.0)];
      assert out[..i + 1] == done + [Property(ps[i].name, v.value.0)];
      p := v.value.1;
      i := i + 1;
    }
    assert out[..i] == out && ps[i..] == [] && out + [] == out;
    r := Ok((out, p));
  }

  // ---- the chunk loop of NextObject -----------------------------------------------------

  /** The `for (ChunkHeader ch; _read_chunk_header(ch); )` loop of
      NextObject, on the stream's bytes from `pos`. */
  method NextChunkLoop(data: Bytes, pos: nat, classes: seq<ObjectDefinition>, objType: int32) returns (r: Result<Next, Error>)
    ensures r == NextChunk(data, pos, classes, objType)
  {
    var p := pos;
    var cls := classes;
    while true
      invariant NextChunk(data, p, cls, objType) == NextChunk(data, pos, classes, objType)
      decreases |data| - p
    {
      var got := ReadChunkHeader(data, p);
      if got.None? {
        return Ok(Next(false, p, cls, objType));
      }
      var ch := got.value;
      assert NextChunk(data, p, cls, objType) == ChunkStep(data, p, ch, cls, objType);
      if ch.chunkType == CHUNK_OBJDEF {
        var d := ReadDefinitionChunk(data, p + 8);
        if d.Err? {
          return Err(d.error);
        }
        cls := cls + [d.value.0];
        p := d.value.1;
      } else if ch.chunkType == CHUNK_OBJECT {
        var t := ReadInt(data, p + 8);
        if t.Err? {
          return Err(t.error);
        }
        if t.value.0 < 0 || t.value.0 as int >= |cls| {
          return Err(InvalidClass);
        }
        var k := t.value.0 as int;
        var vals := ReadObjectValues(data, t.value.1, cls[k].props);
        if vals.Err? {
          return Err(vals.error);
        }
        return Ok(Next(true, vals.value.1, cls[k := ObjectDefinition(cls[k].className, vals.value.0)], t.value.0));
      } else {
        p := p + 8 + ch.chunkSize as int;
      }
    }
  }

  // ---- the definition chunk -------------------------------------------------------------

  /** The definition chunk WriteCurrentObject writes for the first object of
      a class: header, name, property count, and a type code and a name per
      property. */
  method EncodeDefinition(od: ObjectDefinition) returns (b: Bytes)
    ensures b == DefinitionChunk(od)
  {
    var head := EncodeChunkHeader(ChunkHeader(CHUNK_OBJDEF, ToUint32(|DefinitionPayload(od)|)));
    var fields := Str(od.className) + I32(ToInt32(|od.props|));
    b := head + fields;
    ghost var start := b;
    var i := 0;
    while i < |od.props|
      invariant 0 <= i <= |od.props|
      invariant b == start + PropDefs(od.props[..i])
    {
      var def := I32(od.props[i].value.TypeCode()) + Str(od.props[i].name);
      PropDefsPrefix(od.props, i);
      Append3(start, PropDefs(od.props[..i]), def);
      b := b + def;
      i := i + 1;
    }
    assert od.props[..i] == od.props;
    Append3(head, fields, PropDefs(od.props));
  }

  /** What WriteCurrentObject writes: the class's definition chunk for the
      first object of a class, then the object chunk around the buffer. */
  method EncodeObject(isNewClass: bool, classes: seq<ObjectDefinition>, buffer: Bytes) returns (b: Bytes)
    requires isNewClass ==> |classes| > 0
    ensures isNewClass ==> b == DefinitionChunk(classes[|classes| - 1]) + ObjectChunk(buffer)
    ensures !isNewClass ==> b == ObjectChunk(buffer)
  {
    b := ObjectChunk(buffer);
    if isNewClass {
      var definition := EncodeDefinition(classes[|classes| - 1]);
      b := definition + b;
    }
  }

  // ---- the header loop of the read-mode constructor ---------------------------------------

  lemma {:induction false} SetAllSnoc(a: AttributeSet, read: Attrs, x: (Bytes, Value))
    ensures SetAll(a, read + [x]) == SetAttr(SetAll(a, read), x.0, x.1)
  {
    SetAllConcat(a, read, [x]);
    assert [x][1..] == [];
  }

  lemma {:induction false} SetAllValid(a: AttributeSet, l: Attrs)
    requires a.Valid()
    ensures SetAll(a, l).Valid()
    decreases |l|
  {
    if |l| > 0 {
      SetAttrValid(a, l[0].0, l[0].1);
      SetAllValid(SetAttr(a, l[0].0, l[0].1), l[1..]);
    }
  }

  /** The read-mode constructor's chunk loop: "invalid file" unless the
      stream opens with "hdr{", then each "attr" chunk of a supported type
      sets its attribute, until "}hdr".  A chunk header that cannot be read
      ends the loop with "unexpected end of file". */
  method ReadHeader(data: Bytes) returns (r: Result<(nat, AttributeSet), Error>)
    ensures r == ParseHeader(data)
    ensures r.Ok? ==> r.value.1.Valid()
  {
    var first := ReadChunkHeader(data, 0);
    if first.None? || first.value.chunkType != CHUNK_HEADER_OPEN {
      return Err(InvalidFile);
    }
    var p := 8;
    ghost var read: Attrs := [];
    var a := NoAttributes;
    SetAllValid(NoAttributes, []);
    while true
      invariant ParseHeaderChunks(data, 8, []) == ParseHeaderChunks(data, p, read)
      invariant a == SetAll(NoAttributes, read) && a.Valid()
      decreases |data| - p
    {
      var got := ReadChunkHeader(data, p);
      if got.None? {
        return Err(UnexpectedEof);
      }
      var ch := got.value;
      assert ParseHeaderChunks(data, p, read) == HeaderChunkBody(data, p, ch, read);
      var body := AttribBody(data, p + 8, ch);
      if body.Err? {
        return Err(body.error);
      }
      if body.value.1.Some? {
        var x := body.value.1.value;
        SetAllSnoc(NoAttributes, read, x);
        SetAttrValid(a, x.0, x.1);
        a := SetAttr(a, x.0, x.1);
      }
      read := Record(read, body.value.1);
      if ch.chunkType == CHUNK_HEADER_CLOSE {
        return Ok((body.value.0, a));
      }
      p := body.value.0;
    }
  }

  // ---- the writers ---------------------------------------------------------------------

  lemma {:induction false} AttrChunksPrefix(l: Attrs, i: nat)
    requires i < |l|
    ensures AttrChunks(l[..i + 1]) == AttrChunks(l[..i]) + AttrChunk(l[i].0, l[i].1)
  {
    assert l[..i + 1] == l[..i] + [l[i]];
    AttrChunksSnoc(l[..i], l[i]);
  }

  lemma {:induction false} PropDefsPrefix(ps: seq<Property>, i: nat)
    requires i < |ps|
    ensures PropDefs(ps[..i + 1]) == PropDefs(ps[..i]) + (I32(ps[i].value.TypeCode()) + Str(ps[i].name))
  {
    assert ps[..i + 1] == ps[..i] + [ps[i]];
    PropDefsSnoc(ps[..i], ps[i]);
  }

  // ---- the writer's invariant, on values ------------------------------------------------

  /** The class-name index names each class, at its own position. */
  predicate Indexed(classes: seq<ObjectDefinition>, index: map<Bytes, nat>)
  {
    (forall name {:trigger index[name]} :: name in index ==> index[name] < |classes| && classes[index[name]].className == name)
    && (forall i :: 0 <= i < |classes| ==> classes[i].className in index)
  }

  /** Every class a writer defines holds the zero value of each property's type. */
  ghost predicate AllBlank(classes: seq<ObjectDefinition>)
  {
    forall i :: 0 <= i < |classes| ==> Blank(classes[i].props)
  }

  /** The buffer holds the current object's class index and the values set
      for it; the first object of a class defines the class's properties. */
  ghost predicate Collected(classes: seq<ObjectDefinition>, current: int, isNewClass: bool, buffer: Bytes, values: seq<Value>)
  {
    -1 <= current < |classes|
    && (current == -1 ==> buffer == [] && isNewClass && classes == [])
    && (current >= 0 ==> buffer == I32(ToInt32(current)) + EncodeValues(values)
                         && (isNewClass ==> current == |classes| - 1 && Matches(classes[current].props, values)))
  }

  /** A class not seen before gets the next free index. */
  lemma {:induction false} IndexedNew(classes: seq<ObjectDefinition>, index: map<Bytes, nat>, name: Bytes)
    requires Indexed(classes, index) && name !in index
    ensures Indexed(classes + [ObjectDefinition(name, [])], index[name := |classes|])
  {
    var cs := classes + [ObjectDefinition(name, [])];
    forall i | 0 <= i < |cs| ensures cs[i].className in index[name := |classes|] {
      if i < |classes| { assert cs[i] == classes[i]; }
    }
  }

  lemma {:induction false} AllBlankNew(classes: seq<ObjectDefinition>, name: Bytes)
    requires AllBlank(classes)
    ensures AllBlank(classes + [ObjectDefinition(name, [])])
  {
    var cs := classes + [ObjectDefinition(name, [])];
    forall i | 0 <= i < |cs| ensures Blank(cs[i].props) {
      if i < |classes| { assert cs[i] == classes[i]; }
    }
  }

  lemma {:induction false} CollectedStart(classes: seq<ObjectDefinition>, k: nat, isNewClass: bool)
    requires k < |classes| && (isNewClass ==> k == |classes| - 1 && classes[k].props == [])
    ensures Collected(classes, k, isNewClass, I32(ToInt32(k)), [])
  {
    assert EncodeValues([]) == [];
    assert I32(ToInt32(k)) + [] == I32(ToInt32(k));
  }

  /** The classes after the first object of the last class got a property
      `name` of the type of `v`. */
  function WithProperty(classes: seq<ObjectDefinition>, name: Bytes, v: Value): seq<ObjectDefinition>
    requires |classes| > 0
  {
    var last := classes[|classes| - 1];
    classes[|classes| - 1 := ObjectDefinition(last.className, last.props + [Property(name, NewProperty(v.TypeCode()).value)])]
  }

  /** Only the last class's properties change: its name stays indexed. */
  lemma {:induction false} IndexedSetLast(classes: seq<ObjectDefinition>, index: map<Bytes, nat>, name: Bytes, v: Value)
    requires Indexed(classes, index) && |classes| > 0
    ensures Indexed(WithProperty(classes, name, v), index)
  {
  }

  /** The new property holds the zero value of its type. */
  lemma {:induction false} AllBlankSetLast(classes: seq<ObjectDefinition>, name: Bytes, v: Value)
    requires AllBlank(classes) && |classes| > 0
    ensures AllBlank(WithProperty(classes, name, v))
  {
  }

  /** A value set on the current object: the buffer and the new class's
      properties grow by it. */
  lemma {:induction false} CollectedSet(classes: seq<ObjectDefinition>, current: int, isNewClass: bool, buffer: Bytes,
                                        values: seq<Value>, name: Bytes, v: Value)
    requires Collected(classes, current, isNewClass, buffer, values) && current >= 0
    ensures var cs := if isNewClass then WithProperty(classes, name, v) else classes;
      Collected(cs, current, isNewClass, buffer + EncodeValue(v), values + [v])
  {
    EncodeValuesSnoc(values, v);
    Append3(I32(ToInt32(current)), EncodeValues(values), EncodeValue(v));
  }

  class MapFile {
    /** The stream: what was written so far, or the whole file being read. */
    var stream: Bytes
    /** The read position in the stream. */
    var cursor: nat
    const modeWrite: bool
    var headerWritten: bool
    var isNewClass: bool
    var objType: int32
    var attrs: AttributeSet
    /** _managed_classes */
    var classes: seq<ObjectDefinition>
    /** _name_to_index */
    var nameToIndex: map<Bytes, nat>
    /** _buffer: the current object's class index and values. */
    var buffer: Bytes
    /** The class of the object being written (-1 before the first), and
        the values set for it so far. */
    ghost var current: int
    ghost var values: seq<Value>

    ghost predicate Valid()
      reads this`headerWritten, this`current, this`classes, this`nameToIndex, this`isNewClass, this`buffer, this`values
      reads this`objType
    {
      (modeWrite ==> HeaderValid() && ClassesValid())
      && (!modeWrite ==> objType == -1 || 0 <= objType as int < |classes|)
    }

    /** The header is written before any object. */
    ghost predicate HeaderValid()
      reads this`headerWritten, this`current
    {
      !headerWritten ==> current == -1
    }

    /** A writer's index names each class once, every class it created
        holds blank properties, and the buffer holds the current object's
        class index and values. */
    ghost predicate ClassesValid()
      reads this`classes, this`nameToIndex, this`current, this`isNewClass, this`buffer, this`values
    {
      Indexed(classes, nameToIndex) && AllBlank(classes)
      && Collected(classes, current, isNewClass, buffer, values)
    }

    /** The write-mode constructor. */
    constructor ForWrite()
      ensures Valid() && attrs.Valid() && modeWrite && !headerWritten && isNewClass && objType == -1
      ensures stream == [] && attrs == NoAttributes && classes == [] && nameToIndex == map[] && buffer == []
    {
      stream, cursor := [], 0;
      modeWrite, headerWritten, isNewClass := true, false, true;
      objType := -1;
      attrs := NoAttributes;
      classes, nameToIndex, buffer := [], map[], [];
      current, values := -1, [];
    }

    /** A read-mode object past the header. */
    constructor ForRead(data: Bytes, pos: nat, a: AttributeSet)
      requires a.Valid()
      ensures Valid() && attrs.Valid() && !modeWrite && objType == -1
      ensures stream == data && cursor == pos && attrs == a && classes == []
    {
      stream, cursor := data, pos;
      modeWrite, headerWritten, isNewClass := false, false, true;
      objType := -1;
      attrs := a;
      classes, nameToIndex, buffer := [], map[], [];
      current, values := -1, [];
    }

    /** The read-mode constructor: reads the header, or fails as ParseHeader does. */
    static method Open(data: Bytes) returns (r: Result<MapFile, Error>)
      ensures r.Ok? <==> ParseHeader(data).Ok?
      ensures r.Err? ==> r.error == ParseHeader(data).error
      ensures r.Ok? ==>
                fresh(r.value) && r.value.Valid() && r.value.attrs.Valid() && !r.value.modeWrite && r.value.objType == -1
                && r.value.stream == data && r.value.classes == []
                && (r.value.cursor, r.value.attrs) == ParseHeader(data).value
    {
      var h := ReadHeader(data);
      if h.Err? {
        return Err(h.error);
      }
      var f := new MapFile.ForRead(data, h.value.0, h.value.1);
      r := Ok(f);
    }

    /** setMapAttribute, for any of the three types; the header must not
        have been written yet. */
    method SetMapAttribute(name: Bytes, v: Value)
      requires Valid() && attrs.Valid() && !headerWritten
      modifies this`attrs
      ensures Valid() && attrs.Valid()
      ensures attrs == SetAttr(old(attrs), name, v)
    {
      SetAttrValid(attrs, name, v);
      attrs := SetAttr(attrs, name, v);
    }

    /** getMapAttribute for the type `t`: the value set under `name`, or
        nothing (the output is left untouched). */
    function GetMapAttribute(name: Bytes, t: int32): (r: Option<Value>)
      reads this
      requires IsDataType(t)
      ensures r.Some? ==> r.value.TypeCode() == t
    {
      GetAttr(attrs, name, t)
    }

    /** The attribute chunks of one of the three maps, in key order. */
    method WriteAttrChunks(l: Attrs)
      modifies this`stream
      ensures stream == old(stream) + AttrChunks(l)
    {
      var i := 0;
      while i < |l|
        invariant 0 <= i <= |l|
        invariant stream == old(stream) + AttrChunks(l[..i])
      {
        var name := l[i].0;
        var v := l[i].1;
        var chunk := EncodeChunkHeader(ChunkHeader(CHUNK_ATTRIB, AttrSize(name, v))) + I32(v.TypeCode()) + Str(name) + EncodeValue(v);
        AttrChunksPrefix(l, i);
        Append3(old(stream), AttrChunks(l[..i]), chunk);
        stream := stream + chunk;
        i := i + 1;
      }
      assert l[..i] == l;
    }

    /** WriteHeader: "hdr{", the int, float and string attributes, "}hdr". */
    method WriteHeader()
      requires modeWrite && !headerWritten
      modifies this`stream
      ensures stream == old(stream) + HeaderBytes(attrs)
    {
      var open, close := EncodeChunkHeader(OpenHeader), EncodeChunkHeader(CloseHeader);
      stream := stream + open;
      WriteAttrChunks(IntAttrs(attrs.ints));
      WriteAttrChunks(FloatAttrs(attrs.floats));
      WriteAttrChunks(StrAttrs(attrs.strs));
      stream := stream + close;
      HeaderAppended(old(stream), open, AttrChunks(IntAttrs(attrs.ints)), AttrChunks(FloatAttrs(attrs.floats)),
        AttrChunks(StrAttrs(attrs.strs)), close);
    }

    /** BeginObject: writes the header before the first object, then starts
        the buffer with the class index: the next free index for a class not
        seen before (which is then new), its old index otherwise. */
    method BeginObject(className: Bytes)
      requires modeWrite && Valid()
      modifies this`stream, this`headerWritten, this`buffer, this`isNewClass, this`nameToIndex, this`classes
      modifies this`current, this`values
      ensures Valid() && headerWritten
      ensures stream == if old(headerWritten) then old(stream) else old(stream) + HeaderBytes(attrs)
      ensures className in old(nameToIndex) ==>
        !isNewClass && classes == old(classes) && nameToIndex == old(nameToIndex)
        && buffer == I32(ToInt32(old(nameToIndex)[className]))
      ensures className !in old(nameToIndex) ==>
        isNewClass && classes == old(classes) + [ObjectDefinition(className, [])]
        && nameToIndex == old(nameToIndex)[className := |old(classes)|]
        && buffer == I32(ToInt32(|old(classes)|))
      ensures className in nameToIndex && classes[nameToIndex[className]].className == className
    {
      WriteHeaderOnce();
      if className !in nameToIndex {
        AddClass(className);
      } else {
        ReuseClass(className);
      }
    }

    /** The header goes out before the first object and only then. */
    method WriteHeaderOnce()
      requires modeWrite && Valid()
      modifies this`stream, this`headerWritten
      ensures Valid() && headerWritten
      ensures stream == if old(headerWritten) then old(stream) else old(stream) + HeaderBytes(attrs)
      ensures classes == old(classes) && nameToIndex == old(nameToIndex) && buffer == old(buffer)
    {
      if !headerWritten {
        WriteHeader();
        headerWritten := true;
      }
    }

    /** The first object of a class: the class gets the next free index and
        an empty definition. */
    method AddClass(className: Bytes)
      requires modeWrite && Valid() && headerWritten && className !in nameToIndex
      modifies this`buffer, this`isNewClass, this`nameToIndex, this`classes, this`current, this`values
      ensures Valid()
      ensures isNewClass && classes == old(classes) + [ObjectDefinition(className, [])]
      ensures nameToIndex == old(nameToIndex)[className := |old(classes)|]
      ensures buffer == I32(ToInt32(|old(classes)|))
      ensures classes[nameToIndex[className]].className == className
    {
      IndexedNew(classes, nameToIndex, className);
      AllBlankNew(classes, className);
      var index := |classes|;
      var cs := classes + [ObjectDefinition(className, [])];
      CollectedStart(cs, index, true);
      isNewClass := true;
      nameToIndex := nameToIndex[className := index];
      classes := cs;
      buffer := I32(ToInt32(index));
      current, values := index, [];
    }

    /** A later object of a known class: its index starts the buffer. */
    method ReuseClass(className: Bytes)
      requires modeWrite && Valid() && headerWritten && className in nameToIndex
      modifies this`buffer, this`isNewClass, this`current, this`values
      ensures Valid() && !isNewClass && buffer == I32(ToInt32(old(nameToIndex)[className]))
      ensures classes == old(classes) && nameToIndex == old(nameToIndex)
      ensures classes[nameToIndex[className]].className == className
    {
      var index := nameToIndex[className];
      CollectedStart(classes, index, false);
      isNewClass := false;
      buffer := I32(ToInt32(index));
      current, values := index, [];
    }

    /** setObjectAttribute, for any of the three types: the first object of
        a class also defines the class's property (the name must be new
        there); the value goes to the buffer. */
    method SetObjectAttribute(name: Bytes, v: Value)
      requires Valid() && (isNewClass ==> |classes| > 0)
      requires isNewClass ==> forall p :: p in classes[|classes| - 1].props ==> p.name != name
      modifies this`classes, this`buffer, this`values
      ensures Valid()
      ensures buffer == old(buffer) + EncodeValue(v) && values == old(values) + [v]
      ensures isNewClass ==> classes == WithProperty(old(classes), name, v)
      ensures !isNewClass ==> classes == old(classes)
    {
      if modeWrite {
        CollectedSet(classes, current, isNewClass, buffer, values, name, v);
        if isNewClass {
          IndexedSetLast(classes, nameToIndex, name, v);
          AllBlankSetLast(classes, name, v);
        }
      }
      if isNewClass {
        classes := WithProperty(classes, name, v);
      }
      buffer := buffer + EncodeValue(v);
      values := values + [v];
    }

    /** WriteCurrentObject: the class's definition chunk for the first
        object of a class, then the object chunk holding the buffer. */
    method WriteCurrentObject()
      requires modeWrite && Valid() && |buffer| > 0 && (isNewClass ==> |classes| > 0)
      modifies this`stream
      ensures Valid()
      ensures isNewClass ==> stream == old(stream) + (DefinitionChunk(classes[|classes| - 1]) + ObjectChunk(buffer))
      ensures !isNewClass ==> stream == old(stream) + ObjectChunk(buffer)
    {
      AppendObject();
    }

    /** The writing half of WriteCurrentObject. */
    method AppendObject()
      requires isNewClass ==> |classes| > 0
      modifies this`stream
      ensures isNewClass ==> stream == old(stream) + (DefinitionChunk(classes[|classes| - 1]) + ObjectChunk(buffer))
      ensures !isNewClass ==> stream == old(stream) + ObjectChunk(buffer)
    {
      var out := EncodeObject(isNewClass, classes, buffer);
      stream := stream + out;
    }

    /** NextObject: the chunk loop from the cursor; on an object, its class's
        properties hold the values read and it becomes the current class. */
    method NextObject() returns (r: Result<bool, Error>)
      requires !modeWrite && Valid()
      modifies this`cursor, this`classes, this`objType
      ensures Valid()
      ensures var n := NextChunk(stream, old(cursor), old(classes), old(objType));
        && (r.Ok? <==> n.Ok?)
        && (r.Err? ==> r.error == n.error && cursor == old(cursor) && classes == old(classes) && objType == old(objType))
        && (r.Ok? ==> r.value == n.value.found && cursor == n.value.pos && classes == n.value.classes && objType == n.value.objType)
    {
      var n := NextChunkLoop(stream, cursor, classes, objType);
      if n.Err? {
        return Err(n.error);
      }
      cursor, classes, objType := n.value.pos, n.value.classes, n.value.objType;
      r := Ok(n.value.found);
    }

    /** getObjectAttribute on the current object. */
    function GetObjectAttribute(name: Bytes, t: int32): (r: Result<Option<Value>, Error>)
      reads this
      requires !modeWrite && Valid() && 0 <= objType as int < |classes|
      ensures r.Ok? && r.value.Some? ==> r.value.value.TypeCode() == t
      ensures r.Err? ==> r.error == BadVariantAccess
    {
      MapFormat.GetObjectAttribute(classes[objType as int].props, name, t)
    }
  }
}
