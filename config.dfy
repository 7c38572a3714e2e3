/*
  The typed configuration tree of engine/config/ConfigBase.cpp.  A ConfVar
  is one variable whose type (nil, number, boolean, string, array or table)
  can be changed in place; arrays hold their elements in a deque and tables
  their entries in a map from names to variables.  Every change the source
  reports through the variable's change event is counted in `notifications`.

  The elements and entries of a variable are held as values inside it, so
  the references the source hands out to them (and their own change events
  and frozen flags) are not modelled.  Numbers are `real`: the float and
  double conversions of the source are not modelled.
*/
module Config {
  import opened Wrappers

  datatype Type = TNil | TNumber | TBoolean | TString | TArray | TTable

  datatype ConfValue =
    | Nil
    | Number(num: real)
    | Boolean(flag: bool)
    | Str(text: string)
    | Array(items: seq<ConfValue>)
    | Table(entries: map<string, ConfValue>)
  {
    function TypeOf(): Type
    {
      match this
      case Nil => TNil
      case Number(_) => TNumber
      case Boolean(_) => TBoolean
      case Str(_) => TString
      case Array(_) => TArray
      case Table(_) => TTable
    }
  }

  /** The value a newly constructed variable of type `t` holds. */
  function Default(t: Type): (v: ConfValue)
    ensures v.TypeOf() == t
    ensures v.Number? ==> v.num == 0.0
    ensures v.Boolean? ==> !v.flag
    ensures v.Str? ==> v.text == []
    ensures v.Array? ==> v.items == []
    ensures v.Table? ==> v.entries == map[]
  {
    match t
    case TNil => Nil
    case TNumber => Number(0.0)
    case TBoolean => Boolean(false)
    case TString => Str([])
    case TArray => Array([])
    case TTable => Table(map[])
  }

  /** The value after ConfVar::SetType(t). */
  function Retyped(v: ConfValue, t: Type): (r: ConfValue)
    ensures r.TypeOf() == t
    ensures v.TypeOf() == t ==> r == v
    ensures v.TypeOf() != t ==> r == Default(t)
  {
    if v.TypeOf() == t then v else Default(t)
  }

  /** `(int) x` in C++: truncation toward zero. */
  function Truncate(x: real): (n: int)
    ensures 0.0 <= x ==> n as real <= x < n as real + 1.0
    ensures x < 0.0 ==> n as real - 1.0 < x <= n as real
  {
    if 0.0 <= x then x.Floor else -((-x).Floor)
  }

  lemma TruncateInt(i: int)
    ensures Truncate(i as real) == i
  {
    var n := Truncate(i as real);
    if 0 <= i {
      assert n <= i < n + 1;
    } else {
      assert n - 1 < i <= n;
    }
  }

  // ---------------------------------------------------------------------
  // Tables

  /** Whether the table has an entry `name` that already is of type `t`. */
  predicate HasTyped(entries: map<string, ConfValue>, name: string, t: Type)
  {
    name in entries && entries[name].TypeOf() == t
  }

  /** The table after ConfVarTable::GetVar(name, t): the entry is created
      (as nil) when absent and then retyped to `t`. */
  function Obtain(entries: map<string, ConfValue>, name: string, t: Type): (r: map<string, ConfValue>)
    ensures r.Keys == entries.Keys + {name}
    ensures r[name].TypeOf() == t
    ensures forall n :: n in entries && n != name ==> r[n] == entries[n]
    ensures HasTyped(entries, name, t) ==> r == entries
    ensures name in entries && !HasTyped(entries, name, t) ==> r[name] == Default(t)
  {
    entries[name := Retyped(if name in entries then entries[name] else Nil, t)]
  }

  /** The change events ConfVarTable::GetVar(name, t) fires: one for a
      created entry and one for a retyped one. */
  function ObtainEvents(entries: map<string, ConfValue>, name: string, t: Type): (k: nat)
    ensures t != TNil ==> (k == 0 <==> HasTyped(entries, name, t))
    ensures t != TNil && name !in entries ==> k == 2
  {
    (if name in entries then 0 else 1) + (if HasTyped(entries, name, t) then 0 else 1)
  }

  /** The table after a getter with a default (GetNum, GetBool, GetStr): an
      entry of the default's type is kept, anything else becomes the default. */
  function WithDefault(entries: map<string, ConfValue>, name: string, def: ConfValue): (r: map<string, ConfValue>)
    ensures r == (if HasTyped(entries, name, def.TypeOf()) then entries else entries[name := def])
  {
    var e := Obtain(entries, name, def.TypeOf());
    if HasTyped(entries, name, def.TypeOf()) then e else e[name := def]
  }

  /** A value stored by a setter is what a later getter returns, whatever its default. */
  lemma GetAfterSet(entries: map<string, ConfValue>, name: string, v: ConfValue, def: ConfValue)
    requires v.TypeOf() == def.TypeOf()
    ensures WithDefault(entries[name := v], name, def) == entries[name := v]
    ensures WithDefault(entries[name := v], name, def)[name] == v
  {
  }

  /** Removing an entry that GetVar created gives back the table it started from. */
  lemma RemoveUndoesObtain(entries: map<string, ConfValue>, name: string, t: Type)
    requires name !in entries
    ensures Obtain(entries, name, t) - {name} == entries
  {
    var r := Obtain(entries, name, t) - {name};
    assert r.Keys == entries.Keys;
    assert forall n :: n in r ==> r[n] == entries[n];
  }

  /** ConfVarTable::Rename(from, to): whether it succeeded and the table after it. */
  function Renamed(entries: map<string, ConfValue>, from: string, to: string): (r: (bool, map<string, ConfValue>))
    ensures r.0 <==> from in entries && (from == to || to !in entries)
    ensures !r.0 || from == to ==> r.1 == entries
    ensures r.0 && from != to ==>
      r.1.Keys == entries.Keys - {from} + {to} && r.1[to] == entries[from] &&
      forall n :: n in entries && n != from ==> r.1[n] == entries[n]
  {
    if from !in entries then (false, entries)
    else if from == to then (true, entries)
    else if to in entries then (false, entries)
    else (true, (entries - {from})[to := entries[from]])
  }

  /** A successful rename is undone by renaming back. */
  lemma RenameBack(entries: map<string, ConfValue>, from: string, to: string)
    requires Renamed(entries, from, to).0
    ensures Renamed(Renamed(entries, from, to).1, to, from) == (true, entries)
  {
    if from != to {
      var moved := Renamed(entries, from, to).1;
      assert to in moved && from !in moved;
      var back := (moved - {to})[from := moved[to]];
      assert back.Keys == entries.Keys;
      assert forall n :: n in back ==> back[n] == entries[n];
      assert back == entries;
    }
  }

  // ---------------------------------------------------------------------
  // Arrays

  /** The elements after ConfVarArray::Resize(n): the first min(old, n)
      are kept and new slots hold nil variables. */
  function Resized(items: seq<ConfValue>, n: nat): (r: seq<ConfValue>)
    ensures |r| == n
    ensures forall i :: 0 <= i < n && i < |items| ==> r[i] == items[i]
    ensures forall i :: |items| <= i < n ==> r[i] == Nil
  {
    if n <= |items| then items[..n] else items + seq(n - |items|, _ => Nil)
  }

  /** Shrinking back to the old size after growing restores the elements. */
  lemma ResizeBack(items: seq<ConfValue>, n: nat)
    requires |items| <= n
    ensures Resized(Resized(items, n), |items|) == items
  {
    assert Resized(Resized(items, n), |items|) == Resized(items, n)[..|items|];
  }

  /** The elements after ConfVarArray::GetVar(index, t). */
  function RetypeAt(items: seq<ConfValue>, index: nat, t: Type): (r: seq<ConfValue>)
    requires index < |items|
    ensures |r| == |items| && r[index].TypeOf() == t
    ensures forall i :: 0 <= i < |items| && i != index ==> r[i] == items[i]
    ensures items[index].TypeOf() == t ==> r == items
  {
    items[index := Retyped(items[index], t)]
  }

  function Max(a: nat, b: nat): nat { if a < b then b else a }

  class ConfVar {
    var value: ConfValue
    var frozen: bool
    /** How many times the variable's change event has fired. */
    var notifications: nat

    constructor ()
      ensures value == Nil && !frozen && notifications == 0
    {
      value := Nil;
      frozen := false;
      notifications := 0;
    }

    method SetType(t: Type)
      requires !frozen
      modifies this`value
      ensures value == Retyped(old(value), t)
    {
      if t != value.TypeOf() {
        value := Default(t);
      }
    }

    method Freeze(freeze: bool)
      modifies this`frozen
      ensures frozen == freeze
    {
      frozen := freeze;
    }

    // -------------------------------------------------------------------
    // Scalars

    /** ConfVarNumber::SetRawNumber and SetFloat: the event fires only
        when the stored number changes. */
    method SetNumber(x: real)
      requires value.Number?
      modifies this`value, this`notifications
      ensures value == Number(x)
      ensures notifications == old(notifications) + (if old(value.num) != x then 1 else 0)
    {
      if value.num != x {
        value := Number(x);
        notifications := notifications + 1;
      }
    }

    method SetInt(x: int)
      requires value.Number?
      modifies this`value, this`notifications
      ensures value == Number(x as real) && GetInt() == x
      ensures notifications == old(notifications) + (if old(value.num) != x as real then 1 else 0)
    {
      SetNumber(x as real);
      TruncateInt(x);
    }

    function GetInt(): int
      reads this
      requires value.Number?
    {
      Truncate(value.num)
    }

    /** ConfVarBool::Set: the event always fires. */
    method SetFlag(b: bool)
      requires value.Boolean?
      modifies this`value, this`notifications
      ensures value == Boolean(b)
      ensures notifications == old(notifications) + 1
    {
      value := Boolean(b);
      notifications := notifications + 1;
    }

    /** ConfVarString::Set: the event always fires. */
    method SetText(s: string)
      requires value.Str?
      modifies this`value, this`notifications
      ensures value == Str(s)
      ensures notifications == old(notifications) + 1
    {
      value := Str(s);
      notifications := notifications + 1;
    }

    // -------------------------------------------------------------------
    // Tables

    function Find(name: string): (r: Option<ConfValue>)
      reads this
      requires value.Table?
      ensures r.Some? <==> name in value.entries
      ensures r.Some? ==> r.value == value.entries[name]
    {
      if name in value.entries then Some(value.entries[name]) else None
    }

    /** ConfVarTable::GetVar: the entry, of type `t`, and whether it already
        existed with that type. */
    method GetVar(name: string, t: Type) returns (entry: ConfValue, existed: bool)
      requires value.Table? && t != TNil
      requires !frozen || HasTyped(value.entries, name, t)
      modifies this`value, this`notifications
      ensures value == Table(Obtain(old(value.entries), name, t))
      ensures entry == value.entries[name] && entry.TypeOf() == t
      ensures existed == HasTyped(old(value.entries), name, t)
      ensures notifications == old(notifications) + ObtainEvents(old(value.entries), name, t)
    {
      var entries := value.entries;
      existed := true;
      if name !in entries {
        entries := entries[name := Nil];
        value := Table(entries);
        notifications := notifications + 1;
      }
      entry := entries[name];
      if entry.TypeOf() != t {
        entry := Default(t);
        value := Table(entries[name := entry]);
        existed := false;
        notifications := notifications + 1;
      }
    }

    /** GetNum, GetBool and GetStr with a default: the default is stored only
        when the entry was created or retyped. */
    method GetWithDefault(name: string, def: ConfValue) returns (entry: ConfValue)
      requires value.Table? && def.TypeOf() in {TNumber, TBoolean, TString}
      requires !frozen || HasTyped(value.entries, name, def.TypeOf())
      modifies this`value, this`notifications
      ensures value == Table(WithDefault(old(value.entries), name, def))
      ensures entry == value.entries[name]
      ensures HasTyped(old(value.entries), name, def.TypeOf()) ==> entry == old(value.entries)[name]
      ensures notifications == old(notifications) + ObtainEvents(old(value.entries), name, def.TypeOf())
    {
      var existed;
      entry, existed := GetVar(name, def.TypeOf());
      if !existed {
        entry := def;
        value := Table(value.entries[name := def]);
      }
    }

    /** SetNum, SetBool and SetStr: the entry is created or retyped as
        needed and then holds `v`. */
    method SetEntry(name: string, v: ConfValue)
      requires value.Table? && v.TypeOf() in {TNumber, TBoolean, TString}
      requires !frozen || HasTyped(value.entries, name, v.TypeOf())
      modifies this`value, this`notifications
      ensures value == Table(old(value.entries)[name := v])
      ensures notifications == old(notifications) + ObtainEvents(old(value.entries), name, v.TypeOf())
    {
      var _, _ := GetVar(name, v.TypeOf());
      value := Table(value.entries[name := v]);
    }

    method Clear()
      requires value.Table? && !frozen
      modifies this`value, this`notifications
      ensures value == Table(map[])
      ensures notifications == old(notifications) + 1
    {
      value := Table(map[]);
      notifications := notifications + 1;
    }

    /** ConfVarTable::Remove(name): true iff the entry existed. */
    method Remove(name: string) returns (removed: bool)
      requires value.Table? && !frozen
      modifies this`value, this`notifications
      ensures removed == (name in old(value.entries))
      ensures value == Table(old(value.entries) - {name})
      ensures notifications == old(notifications) + (if removed then 1 else 0)
    {
      removed := name in value.entries;
      if removed {
        value := Table(value.entries - {name});
        notifications := notifications + 1;
      }
    }

    method Rename(from: string, to: string) returns (ok: bool)
      requires value.Table? && !frozen
      modifies this`value, this`notifications
      ensures value.Table? && (ok, value.entries) == Renamed(old(value.entries), from, to)
      ensures notifications == old(notifications) + (if ok && from != to then 1 else 0)
    {
      var entries := value.entries;
      if from !in entries {
        return false;
      }
      if from == to {
        return true;
      }
      if to in entries {
        return false;
      }
      value := Table((entries - {from})[to := entries[from]]);
      notifications := notifications + 1;
      ok := true;
    }

    // -------------------------------------------------------------------
    // Arrays

    /** ConfVarArray::GetVar: the element, retyped to `t`, and whether it
        already had that type. */
    method GetElement(index: nat, t: Type) returns (entry: ConfValue, existed: bool)
      requires value.Array? && index < |value.items|
      modifies this`value, this`notifications
      ensures value == Array(RetypeAt(old(value.items), index, t))
      ensures entry == value.items[index] && entry.TypeOf() == t
      ensures existed == (old(value.items)[index].TypeOf() == t)
      ensures notifications == old(notifications) + (if existed then 0 else 1)
    {
      entry := value.items[index];
      existed := true;
      if entry.TypeOf() != t {
        entry := Default(t);
        value := Array(value.items[index := entry]);
        existed := false;
        notifications := notifications + 1;
      }
    }

    method Resize(n: nat)
      requires value.Array?
      modifies this`value, this`notifications
      ensures value == Array(Resized(old(value.items), n))
      ensures notifications == old(notifications) + (if n != |old(value.items)| then 1 else 0)
    {
      var items := value.items;
      if n != |items| {
        if n < |items| {
          items := items[..n];
        } else {
          var i := |items|;
          while i < n
            invariant |value.items| <= i <= n && |items| == i
            invariant items[..|value.items|] == value.items
            invariant forall j :: |value.items| <= j < i ==> items[j] == Nil
          {
            items := items + [Nil];
            i := i + 1;
          }
        }
        assert items == Resized(value.items, n);
        value := Array(items);
        notifications := notifications + 1;
      }
    }

    /** ConfVarArray::EnsureIndex: afterwards the array has at least
        index + 1 elements. */
    method EnsureIndex(index: nat)
      requires value.Array?
      modifies this`value, this`notifications
      ensures value == Array(Resized(old(value.items), Max(|old(value.items)|, index + 1)))
      ensures |value.items| > index
      ensures notifications == old(notifications) + (if index + 1 > |old(value.items)| then 1 else 0)
    {
      if index + 1 > |value.items| {
        Resize(index + 1);
      } else {
        assert Resized(value.items, |value.items|) == value.items;
      }
    }

    method PushBack(t: Type)
      requires value.Array?
      modifies this`value, this`notifications
      ensures value == Array(old(value.items) + [Default(t)])
      ensures notifications == old(notifications) + 1
    {
      value := Array(value.items + [Retyped(Nil, t)]);
      notifications := notifications + 1;
    }

    method PushFront(t: Type)
      requires value.Array?
      modifies this`value, this`notifications
      ensures value == Array([Default(t)] + old(value.items))
      ensures notifications == old(notifications) + 1
    {
      value := Array([Retyped(Nil, t)] + value.items);
      notifications := notifications + 1;
    }

    method PopBack()
      requires value.Array? && |value.items| > 0
      modifies this`value, this`notifications
      ensures value == Array(old(value.items)[..|old(value.items)| - 1])
      ensures notifications == old(notifications) + 1
    {
      value := Array(value.items[..|value.items| - 1]);
      notifications := notifications + 1;
    }

    method PopFront()
      requires value.Array? && |value.items| > 0
      modifies this`value, this`notifications
      ensures value == Array(old(value.items)[1..])
      ensures notifications == old(notifications) + 1
    {
      value := Array(value.items[1..]);
      notifications := notifications + 1;
    }

    method RemoveAt(index: nat)
      requires value.Array? && index < |value.items|
      modifies this`value, this`notifications
      ensures value == Array(old(value.items)[..index] + old(value.items)[index + 1..])
      ensures notifications == old(notifications) + 1
    {
      value := Array(value.items[..index] + value.items[index + 1..]);
      notifications := notifications + 1;
    }
  }
}
