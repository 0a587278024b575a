/** `options.c`: the open-addressing table of options. */
module OptionTable {
  import opened Basics

  const OPTIONS_MAX := 181
  const OPTION_FREE: bv8 := 0

  // ----- names and their hash

  /** `tolower` of a signed character. */
  function CharValue(b: Byte): int {
    if b < 128 then ToLower(b) else b - 256
  }

  /** djb2 on 32 bits. */
  function HashFrom(h: nat, name: Name): nat
    decreases |name|
  {
    if name == [] then h else HashFrom((33 * h + CharValue(name[0])) % 0x1_0000_0000, name[1..])
  }

  function HashOf(name: Name): nat {
    HashFrom(5381, name)
  }

  /** `hash`. */
  method Hash(name: Name) returns (h: nat)
    ensures h == HashOf(name)
  {
    h := 5381;
    var i := 0;
    while i < |name|
      invariant 0 <= i <= |name|
      invariant HashFrom(h, name[i..]) == HashOf(name)
    {
      assert name[i..][1..] == name[i + 1..];
      h := (33 * h + CharValue(name[i])) % 0x1_0000_0000;
      i := i + 1;
    }
  }

  lemma {:induction false} HashIgnoresCase(h: nat, a: Name, b: Name)
    requires Fold(a) == Fold(b)
    ensures HashFrom(h, a) == HashFrom(h, b)
    decreases |a|
  {
    if a != [] {
      assert |a| == |b|;
      assert ToLower(a[0]) == Fold(a)[0] == Fold(b)[0] == ToLower(b[0]);
      assert Fold(a[1..]) == Fold(a)[1..] == Fold(b)[1..] == Fold(b[1..]);
      HashIgnoresCase((33 * h + CharValue(a[0])) % 0x1_0000_0000, a[1..], b[1..]);
    }
  }

  /** djb2 without any limit. */
  function Djb2(name: Name): int {
    if name == [] then 5381 else 33 * Djb2(name[..|name| - 1]) + CharValue(name[|name| - 1])
  }

  /** The hash is djb2 modulo 2^32, whatever overflows on the way. */
  lemma {:induction false} HashIsDjb2(name: Name)
    ensures HashOf(name) == Djb2(name) % 0x1_0000_0000
  {
    if name != [] {
      var n := |name| - 1;
      HashIsDjb2(name[..n]);
      HashMore(5381, name[..n], name[n]);
      assert name == name[..n] + [name[n]];
      Remainders(Djb2(name[..n]), CharValue(name[n]));
    }
  }

  lemma {:induction false} HashMore(h: nat, name: Name, c: Byte)
    ensures HashFrom(h, name + [c]) == (33 * HashFrom(h, name) + CharValue(c)) % 0x1_0000_0000
    decreases |name|
  {
    var all := name + [c];
    if name == [] {
      assert all[1..] == [];
    } else {
      assert all[1..] == name[1..] + [c] && all[0] == name[0];
      HashMore((33 * h + CharValue(name[0])) % 0x1_0000_0000, name[1..], c);
    }
  }

  lemma Remainders(a: int, c: int)
    ensures (33 * (a % 0x1_0000_0000) + c) % 0x1_0000_0000 == (33 * a + c) % 0x1_0000_0000
  {}

  /** Upper and lower case count the same, and characters from 128 on are negative. */
  lemma HashValues()
    ensures HashOf([]) == 5381
    ensures HashOf([97]) == HashOf([65]) == 177670
    ensures HashOf([233]) == 177550
  {
    assert Djb2([]) == 5381;
    var a: Name, b: Name, c: Name := [97], [65], [233];
    assert a[..0] == [] && b[..0] == [] && c[..0] == [];
    HashIsDjb2([]);
    HashIsDjb2(a);
    HashIsDjb2(b);
    HashIsDjb2(c);
  }

  // ----- the table

  /** The fields of `struct option` that searching looks at. */
  datatype Slot = Slot(name: Name, kind: bv8, hash: nat)

  const EMPTY := Slot([], OPTION_FREE, 0)

  /** Slot k comes before slot e when probing from `start`. */
  predicate Before(start: nat, k: nat, e: nat) {
    if start <= e then start <= k < e else start <= k || k < e
  }

  function Used(s: seq<Slot>): nat {
    if s == [] then 0 else Used(s[..|s| - 1]) + if s[|s| - 1].kind == OPTION_FREE then 0 else 1
  }

  lemma {:induction false} UsedUpdate(s: seq<Slot>, i: nat, x: Slot)
    requires i < |s| && s[i].kind == OPTION_FREE && x.kind != OPTION_FREE
    ensures Used(s[i := x]) == Used(s) + 1
  {
    var n := |s| - 1;
    if i == n {
      assert s[i := x][..n] == s[..n];
    } else {
      assert s[i := x][..n] == s[..n][i := x];
      UsedUpdate(s[..n], i, x);
    }
  }

  lemma {:induction false} FullTable(s: seq<Slot>)
    requires forall i :: 0 <= i < |s| ==> s[i].kind != OPTION_FREE
    ensures Used(s) == |s|
  {
    if s != [] { FullTable(s[..|s| - 1]); }
  }

  lemma {:induction false} EmptyTable(s: seq<Slot>)
    requires forall i :: 0 <= i < |s| ==> s[i].kind == OPTION_FREE
    ensures Used(s) == 0
  {
    if s != [] { EmptyTable(s[..|s| - 1]); }
  }

  /** The table `t` holds exactly the folded names of `m`, each where a probe finds it. */
  ghost predicate Stores(t: seq<Slot>, m: map<Name, nat>) {
    && |t| == OPTIONS_MAX
    && (forall f :: f in m ==> m[f] < |t| && t[m[f]].kind != OPTION_FREE && Fold(t[m[f]].name) == f)
    && (forall i :: 0 <= i < |t| && t[i].kind != OPTION_FREE ==> Fold(t[i].name) in m && m[Fold(t[i].name)] == i)
    && (forall i :: 0 <= i < |t| && t[i].kind != OPTION_FREE ==> t[i].hash == HashOf(t[i].name))
    && (forall i, k :: 0 <= i < |t| && 0 <= k < |t| && t[i].kind != OPTION_FREE && Before(t[i].hash % OPTIONS_MAX, k, i)
          ==> t[k].kind != OPTION_FREE)
  }

  /** The mask has the bit of the kind. */
  predicate Accepts(mask: bv8, kind: bv8) {
    mask & kind != 0
  }

  /** The five kinds are told apart, and the mask for any kind accepts them all. */
  lemma MaskIs(kind: bv8, mask: bv8)
    requires kind in {1, 2, 4, 8, 16} && mask in {1, 2, 4, 8, 16}
    ensures Accepts(mask, kind) <==> mask == kind
    ensures Accepts(255, kind) && Accepts(mask | kind, kind) && !Accepts(mask, OPTION_FREE)
  {}

  predicate Matches(s: Slot, name: Name, mask: bv8) {
    s.kind != OPTION_FREE && Accepts(mask, s.kind) && Fold(s.name) == Fold(name)
  }

  /** What a lookup should give, by the map. */
  ghost function Expected(t: seq<Slot>, m: map<Name, nat>, name: Name, mask: bv8): int
    requires Stores(t, m)
  {
    if Fold(name) in m && Accepts(mask, t[m[Fold(name)]].kind) then m[Fold(name)] else -1
  }

  lemma FoundAt(t: seq<Slot>, m: map<Name, nat>, name: Name, mask: bv8, i: nat)
    requires Stores(t, m) && i < |t| && Matches(t[i], name, mask)
    ensures Expected(t, m, name, mask) == i
  {}

  /** A probe that meets no match up to a free slot, or all around, finds nothing. */
  lemma NotFound(t: seq<Slot>, m: map<Name, nat>, name: Name, mask: bv8, stop: nat)
    requires Stores(t, m)
    requires stop < |t| ==> t[stop].kind == OPTION_FREE
    requires forall k ::
      0 <= k < |t| && (stop < |t| ==> Before(HashOf(name) % OPTIONS_MAX, k, stop)) ==> !Matches(t[k], name, mask)
    ensures Expected(t, m, name, mask) == -1
  {
    if Fold(name) in m {
      var e := m[Fold(name)];
      HashIgnoresCase(5381, t[e].name, name);
      var start := HashOf(name) % OPTIONS_MAX;
      assert stop < |t| ==> Before(start, e, stop) || e == stop || Before(start, stop, e);
    }
  }

  class Table {
    const options: array<Slot>
    var num: nat
    ghost var slots: map<Name, nat>

    ghost predicate Valid()
      reads this, options
    {
      Stores(options[..], slots) && num == Used(options[..])
    }

    constructor ()
      ensures Valid() && slots == map[] && num == 0 && fresh(options)
    {
      options := new Slot[OPTIONS_MAX](i => EMPTY);
      num := 0;
      slots := map[];
      new;
      EmptyTable(options[..]);
    }

    /** The kind stored for a folded name. */
    ghost function KindOf(f: Name): bv8
      requires Valid() && f in slots
      reads this, options
    {
      options[slots[f]].kind
    }

    lemma SlotFound(name: Name, mask: bv8)
      requires Valid()
      ensures options.Length == 181
      ensures var r := Expected(options[..], slots, name, mask);
        r != -1 ==> 0 <= r < 181 && Fold(options[r].name) == Fold(name) && Accepts(mask, options[r].kind)
    {
      hide Used, HashOf;
      assert |options[..]| == options.Length;
    }

    /** The body of both loops of `find_option`. */
    method Examine(i: nat, name: Name, h: nat, mask: bv8) returns (stop: bool, r: int)
      requires Valid() && i < OPTIONS_MAX && h == HashOf(name)
      ensures stop && r == -1 ==> options[i].kind == OPTION_FREE
      ensures stop && r != -1 ==> r == Expected(options[..], slots, name, mask)
      ensures !stop ==> !Matches(options[i], name, mask)
    {
      hide HashOf, Used, Accepts;
      ghost var t := options[..];
      if options[i].kind == OPTION_FREE {
        return true, -1;
      } else if h == options[i].hash && Accepts(mask, options[i].kind) {
        if Fold(name) == Fold(options[i].name) {
          FoundAt(t, slots, name, mask, i);
          return true, i;
        }
      }
      SameHash(t, slots, name, i);
      return false, -1;
    }

    /** `find_option`: probes upward from the hash position and then from slot 0; stops
        early at a free slot. */
    method FindOption(name: Name, mask: bv8) returns (r: int)
      requires Valid()
      ensures r == Expected(options[..], slots, name, mask)
    {
      assert |options[..]| == OPTIONS_MAX;
      hide HashOf, Used, Stores, Matches, Fold, Expected;
      ghost var t := options[..];
      var h := Hash(name);
      var start := h % OPTIONS_MAX;
      var stop;
      var i := start;
      while i < OPTIONS_MAX
        invariant start <= i <= OPTIONS_MAX
        invariant forall k :: start <= k < i ==> !Matches(t[k], name, mask)
      {
        stop, r := Examine(i, name, h, mask);
        if stop {
          if r == -1 { NotFound(t, slots, name, mask, i); }
          return;
        }
        i := i + 1;
      }
      i := 0;
      while i < start
        invariant 0 <= i <= start
        invariant forall k :: start <= k < OPTIONS_MAX ==> !Matches(t[k], name, mask)
        invariant forall k :: 0 <= k < i ==> !Matches(t[k], name, mask)
      {
        stop, r := Examine(i, name, h, mask);
        if stop {
          if r == -1 { NotFound(t, slots, name, mask, i); }
          return;
        }
        i := i + 1;
      }
      NotFound(t, slots, name, mask, OPTIONS_MAX);
      return -1;
    }

    lemma ExpectedKind(name: Name, mask: bv8)
      requires Valid()
      ensures Expected(options[..], slots, name, mask)
           == if Fold(name) in slots && Accepts(mask, KindOf(Fold(name))) then slots[Fold(name)] else -1
    {}

    /** `find_free`: the first free slot in probe order, if there is one. */
    method FindFree(h: nat) returns (r: int)
      requires options.Length == OPTIONS_MAX
      ensures r == -1 ==> forall k :: 0 <= k < OPTIONS_MAX ==> options[k].kind != OPTION_FREE
      ensures r != -1 ==> 0 <= r < OPTIONS_MAX && options[r].kind == OPTION_FREE
      ensures r != -1 ==>
        forall k :: 0 <= k < OPTIONS_MAX && Before(h % OPTIONS_MAX, k, r) ==> options[k].kind != OPTION_FREE
    {
      var start := h % OPTIONS_MAX;
      var i := start;
      while i < OPTIONS_MAX
        invariant start <= i <= OPTIONS_MAX
        invariant forall k :: start <= k < i ==> options[k].kind != OPTION_FREE
      {
        if options[i].kind == OPTION_FREE {
          return i;
        }
        i := i + 1;
      }
      i := 0;
      while i < start
        invariant 0 <= i <= start
        invariant forall k :: start <= k < OPTIONS_MAX ==> options[k].kind != OPTION_FREE
        invariant forall k :: 0 <= k < i ==> options[k].kind != OPTION_FREE
      {
        if options[i].kind == OPTION_FREE {
          return i;
        }
        i := i + 1;
      }
      return -1;
    }

    /** `init_option`, for a name that is new up to case; a slot is always found. */
    method InitOption(name: Name, kind: bv8) returns (pos: int)
      requires Valid() && num < OPTIONS_MAX && Fold(name) !in slots && kind != OPTION_FREE
      modifies this, options
      ensures Valid() && num == old(num) + 1
      ensures 0 <= pos < OPTIONS_MAX && slots == old(slots)[Fold(name) := pos]
      ensures options[..] == old(options[..])[pos := Slot(name, kind, HashOf(name))]
      ensures KindOf(Fold(name)) == kind && forall f :: f in old(slots) ==> f in slots && KindOf(f) == old(KindOf(f))
    {
      hide HashOf, Used;
      ghost var t := options[..];
      var h := Hash(name);
      pos := FindFree(h);
      HasRoom(t, num, pos);
      AddKeeps(t, slots, name, kind, pos);
      UsedUpdate(t, pos, Slot(name, kind, h));
      options[pos] := Slot(name, kind, h);
      slots := slots[Fold(name) := pos];
      num := num + 1;
      assert options[..] == t[pos := Slot(name, kind, h)];
    }
  }

  lemma HasRoom(t: seq<Slot>, num: nat, pos: int)
    requires |t| == OPTIONS_MAX && num == Used(t) && num < OPTIONS_MAX
    requires pos == -1 ==> forall k :: 0 <= k < OPTIONS_MAX ==> t[k].kind != OPTION_FREE
    ensures pos != -1
  {
    if pos == -1 { FullTable(t); }
  }

  /** A slot whose stored hash differs cannot be a match. */
  lemma SameHash(t: seq<Slot>, m: map<Name, nat>, name: Name, i: nat)
    requires Stores(t, m) && i < |t| && t[i].kind != OPTION_FREE
    ensures Fold(t[i].name) == Fold(name) ==> t[i].hash == HashOf(name)
  {
    if Fold(t[i].name) == Fold(name) { HashIgnoresCase(5381, t[i].name, name); }
  }

  /** Filling the first free slot in probe order keeps every name where it can be found. */
  lemma AddKeeps(t: seq<Slot>, m: map<Name, nat>, name: Name, kind: bv8, pos: nat)
    requires Stores(t, m) && Fold(name) !in m && kind != OPTION_FREE && pos < |t| && t[pos].kind == OPTION_FREE
    requires forall k :: 0 <= k < |t| && Before(HashOf(name) % OPTIONS_MAX, k, pos) ==> t[k].kind != OPTION_FREE
    ensures Stores(t[pos := Slot(name, kind, HashOf(name))], m[Fold(name) := pos])
  {
    hide HashOf;
    var t', m' := t[pos := Slot(name, kind, HashOf(name))], m[Fold(name) := pos];
    forall f | f in m' ensures m'[f] < |t'| && t'[m'[f]].kind != OPTION_FREE && Fold(t'[m'[f]].name) == f {
      if f != Fold(name) { assert f in m; }
    }
  }

  /** Entering any names that differ up to case, as many as fit: the table is then a map
      from folded names to slots, and a lookup agrees with that map. */
  method Build(names: seq<Name>, kinds: seq<bv8>, name: Name, mask: bv8) returns (t: Table, r: int)
    requires |names| == |kinds| <= OPTIONS_MAX && forall i :: 0 <= i < |kinds| ==> kinds[i] != OPTION_FREE
    requires forall i, j :: 0 <= i < j < |names| ==> Fold(names[i]) != Fold(names[j])
    ensures t.Valid()
    ensures forall f :: f in t.slots <==> exists i :: 0 <= i < |names| && f == Fold(names[i])
    ensures forall i :: 0 <= i < |names| ==> Fold(names[i]) in t.slots && t.KindOf(Fold(names[i])) == kinds[i]
    ensures r == if Fold(name) in t.slots && Accepts(mask, t.KindOf(Fold(name))) then t.slots[Fold(name)] else -1
    ensures t.options.Length == 181
    ensures r == -1 <==> forall i :: 0 <= i < |names| && Fold(names[i]) == Fold(name) ==> !Accepts(mask, kinds[i])
    ensures r != -1 ==> 0 <= r < 181 && Fold(t.options[r].name) == Fold(name) && Accepts(mask, t.options[r].kind)
  {
    hide *;
    t := Filled(names, kinds);
    r := t.FindOption(name, mask);
    t.ExpectedKind(name, mask);
    t.SlotFound(name, mask);
    NoneMatches(t, names, kinds, name, mask, r);
  }

  /** A table with the given options. */
  method Filled(names: seq<Name>, kinds: seq<bv8>) returns (t: Table)
    requires |names| == |kinds| <= OPTIONS_MAX && forall i :: 0 <= i < |kinds| ==> kinds[i] != OPTION_FREE
    requires forall i, j :: 0 <= i < j < |names| ==> Fold(names[i]) != Fold(names[j])
    ensures t.Valid()
    ensures forall f :: f in t.slots <==> exists i :: 0 <= i < |names| && f == Fold(names[i])
    ensures forall i :: 0 <= i < |names| ==> Fold(names[i]) in t.slots && t.KindOf(Fold(names[i])) == kinds[i]
  {
    hide Stores, Used, Fold, HashOf, Table.KindOf;
    t := new Table();
    var i := 0;
    while i < |names|
      invariant 0 <= i <= |names| && t.Valid() && t.num == i && fresh(t) && fresh(t.options)
      invariant forall j :: 0 <= j < i ==> Fold(names[j]) in t.slots && t.KindOf(Fold(names[j])) == kinds[j]
      invariant forall f :: f in t.slots ==> exists j :: 0 <= j < i && f == Fold(names[j])
    {
      var _ := t.InitOption(names[i], kinds[i]);
      i := i + 1;
    }
  }

  lemma NoneMatches(t: Table, names: seq<Name>, kinds: seq<bv8>, name: Name, mask: bv8, r: int)
    requires |names| == |kinds| && t.Valid()
    requires forall f :: f in t.slots <==> exists i :: 0 <= i < |names| && f == Fold(names[i])
    requires forall i :: 0 <= i < |names| ==> Fold(names[i]) in t.slots && t.KindOf(Fold(names[i])) == kinds[i]
    requires r == if Fold(name) in t.slots && Accepts(mask, t.KindOf(Fold(name))) then t.slots[Fold(name)] else -1
    ensures r == -1 <==> forall i :: 0 <= i < |names| && Fold(names[i]) == Fold(name) ==> !Accepts(mask, kinds[i])
  {
    hide Stores, Used, Fold, Table.KindOf;
    if Fold(name) in t.slots {
      var i :| 0 <= i < |names| && Fold(name) == Fold(names[i]);
      assert t.KindOf(Fold(name)) == kinds[i];
    }
  }
}
