/** Typed-value bindings of the extension registry
    (browser/src/extension-loader.js:82-100, 535-537, 612-614, 673-688,
    698-759, 769-799).

    Adding an extension drains the typed values its manifest declares into a
    map by hex type id. A conflict is thrown in the middle of the drain, with
    the extension already registered and its earlier bindings in place. */
module TypedValues {
  import opened Text

  // ----- hex keys -----

  function HexChar(n: nat): char
    requires n < 16
  {
    if n < 10 then '0' + n as char else 'a' + (n - 10) as char
  }

  /** One element of the list, of which only the low byte counts. */
  function HexByte(b: int): string {
    Hex2(b % 256)
  }

  function Hex2(b: nat): string
    requires b < 256
  {
    [HexChar(b / 16), HexChar(b % 16)]
  }

  function BytesToHex(bytes: seq<int>): string {
    if bytes == [] then "" else BytesToHex(bytes[..|bytes| - 1]) + HexByte(bytes[|bytes| - 1])
  }

  /** `toString(16)`, without a leading zero. */
  function Hex(b: nat): string
    requires b < 256
  {
    if b < 16 then [HexChar(b)] else [HexChar(b / 16), HexChar(b % 16)]
  }

  lemma {:induction false} PaddedHex(b: nat)
    requires b < 256
    ensures (if b < 16 then "0" else "") + Hex(b) == HexByte(b)
  {
    hide HexChar;
    assert HexChar(0) == '0' by { Zero(); }
  }

  lemma {:induction false} Zero()
    ensures HexChar(0) == '0'
  {
  }

  method BytesToHexLoop(bytes: seq<int>) returns (s: string)
    ensures s == BytesToHex(bytes)
  {
    hide Hex, HexByte, Hex2;
    s := "";
    for i := 0 to |bytes|
      invariant s == BytesToHex(bytes[..i])
    {
      assert bytes[..i + 1][..i] == bytes[..i];
      var b := bytes[i] % 256;
      PaddedHex(b);
      HexByteIs(b, bytes[i]);
      s := s + ((if b < 16 then "0" else "") + Hex(b));
    }
    assert bytes[..|bytes|] == bytes;
  }

  lemma {:induction false} HexLength(bytes: seq<int>)
    ensures |BytesToHex(bytes)| == 2 * |bytes|
  {
    if bytes != [] {
      HexLength(bytes[..|bytes| - 1]);
    }
  }

  lemma {:induction false} HexCharIs(m: nat, n: nat)
    requires m < 16 && n < 16 && HexChar(m) == HexChar(n)
    ensures m == n
  {
  }

  lemma {:induction false} HexByteIs(a: int, b: int)
    ensures HexByte(a) == HexByte(b) <==> a % 256 == b % 256
  {
    if HexByte(a) == HexByte(b) {
      Hex2Is(a % 256, b % 256);
    }
  }

  lemma {:induction false} Hex2Is(a: nat, b: nat)
    requires a < 256 && b < 256 && Hex2(a) == Hex2(b)
    ensures a == b
  {
    hide HexChar;
    assert Hex2(a)[0] == Hex2(b)[0] && Hex2(a)[1] == Hex2(b)[1];
    HexCharIs(a / 16, b / 16);
    HexCharIs(a % 16, b % 16);
  }

  /** The key: two lower-case hexadecimal digits for the low byte of each
      element, in order. */
  lemma {:induction false} HexIs(bytes: seq<int>, i: nat)
    requires i < |bytes|
    ensures var s := BytesToHex(bytes);
            && |s| == 2 * |bytes|
            && IsNibble(s[2 * i], bytes[i] % 256 / 16) && IsNibble(s[2 * i + 1], bytes[i] % 256 % 16)
            && !('A' <= s[2 * i] <= 'Z') && !('A' <= s[2 * i + 1] <= 'Z')
  {
    hide HexByte;
    var n := |bytes| - 1;
    LastTwo(bytes);
    HexLength(bytes[..n]);
    var s := BytesToHex(bytes);
    if i < n {
      HexIs(bytes[..n], i);
      assert s[2 * i] == s[..2 * n][2 * i] && s[2 * i + 1] == s[..2 * n][2 * i + 1];
    } else {
      HexByteDigits(bytes[n]);
      assert s[2 * n] == s[2 * n..][0] && s[2 * n + 1] == s[2 * n..][1];
    }
  }

  lemma {:induction false} HexByteDigits(b: int)
    ensures var s := HexByte(b);
            && |s| == 2 && IsNibble(s[0], b % 256 / 16) && IsNibble(s[1], b % 256 % 16)
            && !('A' <= s[0] <= 'Z') && !('A' <= s[1] <= 'Z')
  {
  }

  /** Two type ids share a key exactly when they have the same length and the
      same low bytes; in particular the key is injective on byte strings. */
  lemma {:induction false} SameKeyIff(a: seq<int>, b: seq<int>)
    ensures BytesToHex(a) == BytesToHex(b) <==> |a| == |b| && forall i :: 0 <= i < |a| ==> a[i] % 256 == b[i] % 256
  {
    hide HexByte;
    HexLength(a);
    HexLength(b);
    if a != [] && |a| == |b| {
      var n := |a| - 1;
      HexLength(a[..n]);
      HexLength(b[..n]);
      SameKeyIff(a[..n], b[..n]);
      HexByteIs(a[n], b[n]);
      LastTwo(a);
      LastTwo(b);
    }
  }

  lemma {:induction false} LastTwo(a: seq<int>)
    requires a != []
    ensures var n, s := |a| - 1, BytesToHex(a);
            |s| == 2 * n + 2 && s[..2 * n] == BytesToHex(a[..n]) && s[2 * n..] == HexByte(a[n])
  {
    HexLength(a[..|a| - 1]);
  }

  // ----- the registry -----

  datatype Binding = Binding(extension: string, symbolic: string, decoder: string, encoder: string)

  /** One entry of a manifest's list; a type id that is missing or not a list
      is `None`. */
  datatype Declared = Declared(typeId: Option<seq<int>>, symbolic: string, decoder: string, encoder: string)

  datatype Registry = Registry(names: set<string>, bindings: map<string, Binding>)

  const EMPTY := Registry({}, map[])

  /** The key the entry is stored under; entries without one are skipped. */
  function KeyOf(d: Declared): Option<string> {
    if d.typeId.None? || BytesToHex(d.typeId.value) == "" then None else Some(BytesToHex(d.typeId.value))
  }

  function BindingOf(name: string, d: Declared): Binding {
    Binding(name, d.symbolic, d.decoder, d.encoder)
  }

  /** The map after draining the list, and whether it came to the end. */
  function Drained(m: map<string, Binding>, name: string, list: seq<Declared>): (map<string, Binding>, bool)
    decreases |list|
  {
    if list == [] then (m, true)
    else
      var key, binding := KeyOf(list[0]), BindingOf(name, list[0]);
      if key.None? then Drained(m, name, list[1..])
      else if key.value !in m then Drained(m[key.value := binding], name, list[1..])
      else if m[key.value] == binding then Drained(m, name, list[1..])
      else (m, false)
  }

  /** Without the bindings of one owner. */
  function Forgotten(m: map<string, Binding>, name: string): map<string, Binding> {
    map k | k in m && m[k].extension != name :: m[k]
  }

  datatype Event = Add(name: string, list: seq<Declared>) | Forget(name: string) | Delete(name: string)

  function After(r: Registry, e: Event): Registry {
    match e
    case Add(name, list) => Registry(r.names + {name}, Drained(r.bindings, name, list).0)
    case Forget(name) => if name in r.names then r.(bindings := Forgotten(r.bindings, name)) else r
    case Delete(name) => Registry(r.names - {name}, Forgotten(r.bindings, name))
  }

  function Run(r: Registry, events: seq<Event>): Registry {
    if events == [] then r else After(Run(r, events[..|events| - 1]), events[|events| - 1])
  }

  /** A run is its events one after the other. */
  lemma {:induction false} RunIs(r: Registry, events: seq<Event>, e: Event)
    ensures Run(r, []) == r && Run(r, events + [e]) == After(Run(r, events), e)
  {
    hide After;
    assert (events + [e])[..|events + [e]| - 1] == events;
  }

  class ExtensionRegistry {
    var byName: set<string>
    var typedValuesByTypeId: map<string, Binding>

    ghost function Abs(): Registry
      reads this
    {
      Registry(byName, typedValuesByTypeId)
    }

    constructor ()
      ensures Abs() == EMPTY && byName == {} && typedValuesByTypeId == map[]
    {
      byName, typedValuesByTypeId := {}, map[];
    }

    /** The end of `add` and `addFromBytes`; false when a conflict is thrown. */
    method Add(name: string, list: seq<Declared>) returns (ok: bool)
      modifies this
      ensures Abs() == After(old(Abs()), Event.Add(name, list))
      ensures ok == Drained(old(typedValuesByTypeId), name, list).1
    {
      byName := byName + {name};
      ok := DrainTypedValues(name, list);
    }

    method DrainTypedValues(name: string, list: seq<Declared>) returns (ok: bool)
      modifies this`typedValuesByTypeId
      ensures (typedValuesByTypeId, ok) == Drained(old(typedValuesByTypeId), name, list)
    {
      hide KeyOf;
      for i := 0 to |list|
        invariant Drained(typedValuesByTypeId, name, list[i..]) == Drained(old(typedValuesByTypeId), name, list)
      {
        assert list[i..][1..] == list[i + 1..];
        var key := KeyOf(list[i]);
        if key.None? { continue; }
        var binding := BindingOf(name, list[i]);
        if key.value in typedValuesByTypeId {
          var existing := typedValuesByTypeId[key.value];
          if existing == binding { continue; }
          return false;
        }
        typedValuesByTypeId := typedValuesByTypeId[key.value := binding];
      }
      ok := true;
    }

    method ForgetTypedValuesFor(name: string)
      modifies this`typedValuesByTypeId
      ensures typedValuesByTypeId == Forgotten(old(typedValuesByTypeId), name)
    {
      var rest := typedValuesByTypeId.Keys;
      ghost var was := typedValuesByTypeId;
      while rest != {}
        invariant rest <= typedValuesByTypeId.Keys <= was.Keys
        invariant forall k <- typedValuesByTypeId :: typedValuesByTypeId[k] == was[k]
        invariant forall k <- was :: k in rest || (k in typedValuesByTypeId <==> was[k].extension != name)
        decreases |rest|
      {
        var k :| k in rest;
        rest := rest - {k};
        if typedValuesByTypeId[k].extension == name {
          typedValuesByTypeId := typedValuesByTypeId - {k};
        }
      }
    }

    method ForgetRegistrations(name: string)
      modifies this`typedValuesByTypeId
      ensures Abs() == After(old(Abs()), Event.Forget(name))
      ensures name !in byName ==> typedValuesByTypeId == old(typedValuesByTypeId)
      ensures name in byName ==> forall k :: k in typedValuesByTypeId <==>
                k in old(typedValuesByTypeId) && old(typedValuesByTypeId)[k].extension != name
    {
      if name !in byName { return; }
      ForgetTypedValuesFor(name);
    }

    method Delete(name: string)
      modifies this
      ensures Abs() == After(old(Abs()), Event.Delete(name))
      ensures byName == old(byName) - {name}
      ensures forall k :: k in typedValuesByTypeId <==>
                k in old(typedValuesByTypeId) && old(typedValuesByTypeId)[k].extension != name
    {
      ForgetTypedValuesFor(name);
      byName := byName - {name};
    }
  }

  // ----- draining -----

  /** Draining only adds bindings, and only of the extension being added. */
  lemma {:induction false} DrainAdds(m: map<string, Binding>, name: string, list: seq<Declared>)
    ensures var after := Drained(m, name, list).0;
            && (forall k <- m :: k in after && after[k] == m[k])
            && (forall k <- after :: k !in m ==> after[k].extension == name)
    decreases |list|
  {
    hide KeyOf;
    if list != [] {
      var key, binding := KeyOf(list[0]), BindingOf(name, list[0]);
      DrainAdds(m, name, list[1..]);
      if key.Some? && key.value !in m {
        DrainAdds(m[key.value := binding], name, list[1..]);
      }
    }
  }

  /** The drain comes to its end exactly when afterwards every entry with a
      key is bound as it was declared. */
  lemma {:induction false} DrainedIff(m: map<string, Binding>, name: string, list: seq<Declared>)
    ensures var (after, ok) := Drained(m, name, list);
            ok <==> forall d <- list :: KeyOf(d).Some? ==>
                      KeyOf(d).value in after && after[KeyOf(d).value] == BindingOf(name, d)
    decreases |list|
  {
    hide KeyOf;
    if list != [] {
      var d, rest := list[0], list[1..];
      var key, binding := KeyOf(d), BindingOf(name, d);
      var next := if key.Some? && key.value !in m then m[key.value := binding] else m;
      assert list == [d] + rest;
      DrainedIff(next, name, rest);
      DrainAdds(next, name, rest);
    }
  }

  /** What the drain has bound when it stops is what its entries up to the
      conflict declared. */
  lemma {:induction false} DrainedFrom(m: map<string, Binding>, name: string, list: seq<Declared>, k: string)
    requires k in Drained(m, name, list).0 && k !in m
    ensures exists d <- list :: KeyOf(d) == Some(k) && Drained(m, name, list).0[k] == BindingOf(name, d)
    decreases |list|
  {
    hide KeyOf;
    var d, rest := list[0], list[1..];
    var key, binding := KeyOf(d), BindingOf(name, d);
    assert list == [d] + rest;
    if key.Some? && key.value !in m {
      if key.value == k {
        DrainAdds(m[k := binding], name, rest);
        assert d in list;
      } else {
        DrainedFrom(m[key.value := binding], name, rest, k);
      }
    } else {
      DrainedFrom(m, name, rest, k);
    }
  }

  /** What a drain that comes to its end has done for an entry with a type id
      that is not empty: its key is bound to exactly the fields declared. An
      entry without a type id, or with an empty one, adds nothing. */
  lemma {:induction false} DeclaredIsBound(m: map<string, Binding>, name: string, list: seq<Declared>, d: Declared)
    requires d in list && Drained(m, name, list).1 && d.typeId.Some? && d.typeId.value != []
    ensures var after, key := Drained(m, name, list).0, BytesToHex(d.typeId.value);
            && key in after && after[key].extension == name && after[key].symbolic == d.symbolic
            && after[key].decoder == d.decoder && after[key].encoder == d.encoder
  {
    hide BytesToHex, Drained;
    DrainedIff(m, name, list);
    HexLength(d.typeId.value);
    assert KeyOf(d) == Some(BytesToHex(d.typeId.value));
  }

  /** A binding that a drain adds, whether it comes to its end or not, has the
      hex key and the fields of an entry of the list. */
  lemma {:induction false} AddedWasDeclared(m: map<string, Binding>, name: string, list: seq<Declared>, k: string)
    requires k in Drained(m, name, list).0 && k !in m
    ensures var b := Drained(m, name, list).0[k];
            exists d <- list ::
              && d.typeId.Some? && d.typeId.value != [] && k == BytesToHex(d.typeId.value)
              && b == Binding(name, d.symbolic, d.decoder, d.encoder)
  {
    hide Drained, BytesToHex;
    DrainedFrom(m, name, list, k);
    var d :| d in list && KeyOf(d) == Some(k) && Drained(m, name, list).0[k] == BindingOf(name, d);
    HexLength(d.typeId.value);
  }

  // ----- whole runs -----

  predicate OwnersRegistered(r: Registry) {
    forall k <- r.bindings :: r.bindings[k].extension in r.names
  }

  /** In every reachable state, also after a conflict in the middle of a drain,
      the owner of every binding is registered. */
  lemma {:induction false} OwnersAlwaysRegistered(events: seq<Event>)
    ensures OwnersRegistered(Run(EMPTY, events))
  {
    hide Drained;
    if events != [] {
      var front, e := events[..|events| - 1], events[|events| - 1];
      OwnersAlwaysRegistered(front);
      if e.Add? {
        DrainAdds(Run(EMPTY, front).bindings, e.name, e.list);
      }
    }
  }

  predicate Drops(e: Event, name: string) {
    (e.Forget? || e.Delete?) && e.name == name
  }

  /** A binding keeps its owner, decoder, encoder and symbolic name through any
      run that neither forgets nor deletes its owner. */
  lemma {:induction false} BindingsPersist(r: Registry, events: seq<Event>, k: string)
    requires k in r.bindings
    requires forall e <- events :: !Drops(e, r.bindings[k].extension)
    ensures k in Run(r, events).bindings && Run(r, events).bindings[k] == r.bindings[k]
  {
    hide Drained;
    if events != [] {
      var front, e := events[..|events| - 1], events[|events| - 1];
      assert forall x <- front :: x in events;
      BindingsPersist(r, front, k);
      assert e in events;
      if e.Add? {
        DrainAdds(Run(r, front).bindings, e.name, e.list);
      }
    }
  }

  /** Forgetting a registered extension, or deleting any, removes exactly the
      bindings it owns. */
  lemma {:induction false} DropsExactlyOwn(r: Registry, e: Event, k: string)
    requires Drops(e, e.name) && (e.Forget? ==> e.name in r.names)
    ensures k in After(r, e).bindings <==> k in r.bindings && r.bindings[k].extension != e.name
    ensures k in After(r, e).bindings ==> After(r, e).bindings[k] == r.bindings[k]
  {
  }

  /** After an extension is deleted it can be added again with any list that
      agrees with itself and with the other extensions' bindings. */
  lemma {:induction false} ReaddAfterDelete(events: seq<Event>, name: string, list: seq<Declared>)
    requires var r := Run(EMPTY, events);
             forall d <- list :: KeyOf(d).Some? && KeyOf(d).value in r.bindings ==>
               r.bindings[KeyOf(d).value].extension == name
    requires forall d <- list, d' <- list ::
               KeyOf(d).Some? && KeyOf(d) == KeyOf(d') ==> BindingOf(name, d) == BindingOf(name, d')
    ensures Drained(After(Run(EMPTY, events), Delete(name)).bindings, name, list).1
  {
    hide KeyOf;
    var m := After(Run(EMPTY, events), Delete(name)).bindings;
    NoConflict(m, name, list);
  }

  lemma {:induction false} NoConflict(m: map<string, Binding>, name: string, list: seq<Declared>)
    requires forall d <- list :: KeyOf(d).Some? && KeyOf(d).value in m ==> m[KeyOf(d).value] == BindingOf(name, d)
    requires forall d <- list, d' <- list ::
               KeyOf(d).Some? && KeyOf(d) == KeyOf(d') ==> BindingOf(name, d) == BindingOf(name, d')
    ensures Drained(m, name, list).1
    decreases |list|
  {
    hide KeyOf;
    if list != [] {
      var d, rest := list[0], list[1..];
      assert d in list && forall x <- rest :: x in list;
      var key := KeyOf(d);
      NoConflict(if key.Some? && key.value !in m then m[key.value := BindingOf(name, d)] else m, name, rest);
    }
  }
}
