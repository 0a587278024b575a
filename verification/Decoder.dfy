/** `decoder.c`: building the decoder list of one preference, with the splice that puts
    the unnamed plugins where the asterisk was. */
module Decoder {
  import opened Basics

  /** `lookup_decoder_by_name`: the first plugin of that name, or the number of plugins. */
  function LookupFrom(plugins: seq<Name>, name: Name, i: nat): (r: nat)
    requires i <= |plugins|
    ensures i <= r <= |plugins|
    ensures r < |plugins| ==> Fold(plugins[r]) == Fold(name)
    ensures forall k :: i <= k < r ==> Fold(plugins[k]) != Fold(name)
    decreases |plugins| - i
  {
    if i == |plugins| || Fold(plugins[i]) == Fold(name) then i else LookupFrom(plugins, name, i + 1)
  }

  const ASTERISK: Name := [42]

  /** The named decoders of the tokens from the i-th on, unknown ones and repetitions
      dropped, in order of appearance, after those in `have`. */
  function Named(plugins: seq<Name>, tokens: seq<Name>, i: nat, have: seq<nat>): seq<nat>
    requires i <= |tokens|
    decreases |tokens| - i
  {
    if i == |tokens| then have
    else
      var d := LookupFrom(plugins, tokens[i], 0);
      Named(plugins, tokens, i + 1, if tokens[i] == ASTERISK || d == |plugins| || d in have then have else have + [d])
  }

  /** How many decoders were listed before the first asterisk; -1 without one. */
  function AsteriskAt(plugins: seq<Name>, tokens: seq<Name>, i: nat, have: seq<nat>): (at: int)
    requires i <= |tokens|
    ensures at >= -1
    decreases |tokens| - i
  {
    if i == |tokens| then -1
    else if tokens[i] == ASTERISK then |have|
    else
      var d := LookupFrom(plugins, tokens[i], 0);
      AsteriskAt(plugins, tokens, i + 1, if d == |plugins| || d in have then have else have + [d])
  }

  function RotatedLeft(s: seq<nat>, n: nat): (r: seq<nat>)
    ensures |r| == |s|
  {
    if s == [] then [] else s[n % |s|..] + s[..n % |s|]
  }

  lemma {:induction false} NamedKeeps(plugins: seq<Name>, tokens: seq<Name>, i: nat, have: seq<nat>)
    requires i <= |tokens| && NoDup(have) && forall d :: d in have ==> d < |plugins|
    ensures var r := Named(plugins, tokens, i, have);
      have <= r && NoDup(r) && (forall d :: d in r ==> d < |plugins|)
    ensures AsteriskAt(plugins, tokens, i, have) <= |Named(plugins, tokens, i, have)|
    decreases |tokens| - i
  {
    if i < |tokens| {
      var d := LookupFrom(plugins, tokens[i], 0);
      NamedKeeps(plugins, tokens, i + 1,
        if tokens[i] == ASTERISK || d == |plugins| || d in have then have else have + [d]);
    }
  }

  // ----- what is named, and in which order

  /** The token is a name of plugin `d`. */
  predicate Names(plugins: seq<Name>, token: Name, d: nat) {
    token != ASTERISK && d < |plugins| && LookupFrom(plugins, token, 0) == d
  }

  ghost predicate Mentioned(plugins: seq<Name>, tokens: seq<Name>, d: nat) {
    exists t :: 1 <= t < |tokens| && Names(plugins, tokens[t], d)
  }

  /** Plugin `d` is named before plugin `e` is. */
  ghost predicate NamedFirst(plugins: seq<Name>, tokens: seq<Name>, d: nat, e: nat) {
    exists t :: 1 <= t < |tokens| && Names(plugins, tokens[t], d) &&
      forall u :: 1 <= u <= t ==> !Names(plugins, tokens[u], e)
  }

  /** One more token at the end. */
  lemma {:induction false} NamedMore(plugins: seq<Name>, tokens: seq<Name>, token: Name, i: nat, have: seq<nat>)
    requires i <= |tokens|
    ensures var d, r := LookupFrom(plugins, token, 0), Named(plugins, tokens, i, have);
      Named(plugins, tokens + [token], i, have) ==
      if token == ASTERISK || d == |plugins| || d in r then r else r + [d]
    ensures AsteriskAt(plugins, tokens + [token], i, have) ==
      if AsteriskAt(plugins, tokens, i, have) != -1 then AsteriskAt(plugins, tokens, i, have)
      else if token == ASTERISK then |Named(plugins, tokens, i, have)| else -1
    decreases |tokens| - i
  {
    hide LookupFrom;
    var d := LookupFrom(plugins, (tokens + [token])[i], 0);
    if i < |tokens| {
      NamedMore(plugins, tokens, token, i + 1,
        if tokens[i] == ASTERISK || d == |plugins| || d in have then have else have + [d]);
    } else {
      var r := if token == ASTERISK || d == |plugins| || d in have then have else have + [d];
      assert Named(plugins, tokens + [token], i + 1, r) == r;
    }
  }

  /** The list holds exactly the plugins that are named, in the order in which they are
      named first. */
  lemma {:induction false} NamedInOrder(plugins: seq<Name>, tokens: seq<Name>)
    requires tokens != []
    ensures var r := Named(plugins, tokens, 1, []);
      && (forall d: nat :: d in r <==> Mentioned(plugins, tokens, d))
      && forall i, j :: 0 <= i < j < |r| ==> NamedFirst(plugins, tokens, r[i], r[j])
  {
    if |tokens| > 1 {
      var n := |tokens| - 1;
      var before, token := tokens[..n], tokens[n];
      assert tokens == before + [token];
      NamedInOrder(plugins, before);
      NamedMore(plugins, before, token, 1, []);
      var r, r' := Named(plugins, before, 1, []), Named(plugins, tokens, 1, []);
      MentionedMore(plugins, before, token);
      hide Named, LookupFrom, Mentioned, NamedFirst;
      forall i, j | 0 <= i < j < |r'| ensures NamedFirst(plugins, tokens, r'[i], r'[j]) {
        if j < |r| {
          FirstMore(plugins, before, token, r[i], r[j]);
        } else {
          assert r[i] in r;
          LastNamed(plugins, before, token, r[i], r'[j]);
        }
      }
    }
  }

  lemma MentionedMore(plugins: seq<Name>, tokens: seq<Name>, token: Name)
    requires tokens != []
    ensures forall d: nat ::
      Mentioned(plugins, tokens + [token], d) <==> Mentioned(plugins, tokens, d) || Names(plugins, token, d)
  {
    hide Names;
    var all := tokens + [token];
    forall d: nat
      ensures Mentioned(plugins, all, d) <==> Mentioned(plugins, tokens, d) || Names(plugins, token, d)
    {
      if Mentioned(plugins, tokens, d) {
        var t :| 1 <= t < |tokens| && Names(plugins, tokens[t], d);
        assert Names(plugins, all[t], d);
      }
      if Names(plugins, token, d) { assert Names(plugins, all[|tokens|], d); }
    }
  }

  lemma FirstMore(plugins: seq<Name>, tokens: seq<Name>, token: Name, d: nat, e: nat)
    requires NamedFirst(plugins, tokens, d, e)
    ensures NamedFirst(plugins, tokens + [token], d, e)
  {
    hide Names;
    var t :| 1 <= t < |tokens| && Names(plugins, tokens[t], d) &&
      forall u :: 1 <= u <= t ==> !Names(plugins, tokens[u], e);
    assert Names(plugins, (tokens + [token])[t], d);
  }

  lemma LastNamed(plugins: seq<Name>, tokens: seq<Name>, token: Name, d: nat, e: nat)
    requires Mentioned(plugins, tokens, d) && !Mentioned(plugins, tokens, e)
    ensures NamedFirst(plugins, tokens + [token], d, e)
  {
    hide Names;
    var t :| 1 <= t < |tokens| && Names(plugins, tokens[t], d);
    assert Names(plugins, (tokens + [token])[t], d);
    forall u | 1 <= u <= t ensures !Names(plugins, (tokens + [token])[u], e) {
      assert (tokens + [token])[u] == tokens[u];
    }
  }

  /** The place of the asterisk is behind the plugins named before it. */
  lemma {:induction false} AsteriskIs(plugins: seq<Name>, tokens: seq<Name>, p: nat)
    requires 1 <= p <= |tokens| && (forall t :: 1 <= t < p ==> tokens[t] != ASTERISK)
    requires p < |tokens| ==> tokens[p] == ASTERISK
    ensures AsteriskAt(plugins, tokens, 1, []) ==
      if p == |tokens| then -1 else |Named(plugins, tokens[..p], 1, [])|
    ensures Named(plugins, tokens[..p], 1, []) <= Named(plugins, tokens, 1, [])
    decreases |tokens|
  {
    if p == |tokens| { assert tokens[..p] == tokens; }
    if |tokens| > 1 {
      var n := |tokens| - 1;
      assert tokens == tokens[..n] + [tokens[n]];
      NamedMore(plugins, tokens[..n], tokens[n], 1, []);
      hide Named, AsteriskAt, LookupFrom;
      AsteriskIs(plugins, tokens[..n], if p == |tokens| then n else p);
      if p < n { assert tokens[..n][..p] == tokens[..p]; }
      assert tokens[..n][..n] == tokens[..n];
    }
  }

  /** What `load_decoders` leaves in the list. */
  function Loaded(plugins: seq<Name>, tokens: seq<Name>): seq<nat>
    requires tokens != []
  {
    var named := Named(plugins, tokens, 1, []);
    var at := AsteriskAt(plugins, tokens, 1, []);
    if at == -1 then named
    else
      NamedKeeps(plugins, tokens, 1, []);
      var rest := Absent(|plugins|, named);
      named[..at] + rest + RotatedLeft(named[at..], |rest|)
  }

  // ----- properties of the lists

  lemma Increasing(s: seq<nat>)
    requires forall i, j :: 0 <= i < j < |s| ==> s[i] < s[j]
    ensures NoDup(s)
  {}

  lemma RotatedAt(s: seq<nat>, n: nat, i: nat)
    requires i < |s|
    ensures RotatedLeft(s, n)[i] == s[(i + n) % |s|]
  {
    var k := n % |s|;
    Wrapped(i, n, |s|);
    assert RotatedLeft(s, n)[i] == if i + k < |s| then s[i + k] else s[i + k - |s|];
  }

  lemma Wrapped(i: nat, n: nat, m: nat)
    requires i < m
    ensures (i + n) % m == if i + n % m < m then i + n % m else i + n % m - m
  {
    var k, q := n % m, n / m;
    assert n == q * m + k;
    if i + k < m {
      DivisionIs(i + n, q, m, i + k);
    } else {
      assert (q + 1) * m == q * m + m;
      DivisionIs(i + n, q + 1, m, i + k - m);
    }
  }

  lemma RotatedMembers(s: seq<nat>, n: nat)
    requires NoDup(s)
    ensures NoDup(RotatedLeft(s, n)) && forall d :: d in RotatedLeft(s, n) <==> d in s
  {
    if s != [] {
      var k := n % |s|;
      var r := RotatedLeft(s, n);
      assert s == s[..k] + s[k..];
      forall i, j | 0 <= i < j < |r| ensures r[i] != r[j] {
        assert r[i] == s[if i < |s| - k then i + k else i - (|s| - k)];
        assert r[j] == s[if j < |s| - k then j + k else j - (|s| - k)];
      }
    }
  }

  lemma NoDupConcat(a: seq<nat>, b: seq<nat>)
    requires NoDup(a) && NoDup(b) && forall d :: d in a ==> d !in b
    ensures NoDup(a + b)
  {
    var s := a + b;
    forall i, j | 0 <= i < j < |s| ensures s[i] != s[j] {
      if i < |a| <= j { assert s[i] in a && s[j] in b; }
    }
  }

  /** A list cut in two, with the missing numbers between and the second part rotated. */
  lemma Spliced(named: seq<nat>, at: nat, n: nat)
    requires NoDup(named) && at <= |named| && forall d :: d in named ==> d < n
    ensures var rest := Absent(n, named);
      var r := named[..at] + rest + RotatedLeft(named[at..], |rest|);
      NoDup(r) && forall d :: d in r <==> 0 <= d < n
  {
    hide RotatedLeft, Absent;
    var rest := Absent(n, named);
    AbsentIs(n, named);
    Increasing(rest);
    var head, tail := named[..at], named[at..];
    RotatedMembers(tail, |rest|);
    assert named == head + tail;
    forall d | d in head ensures d !in tail { HeadTail(named, at, d); }
    NoDupConcat(head, rest);
    NoDupConcat(head + rest, RotatedLeft(tail, |rest|));
    var r := head + rest + RotatedLeft(tail, |rest|);
    forall d ensures d in r <==> 0 <= d < n {
      assert d in named <==> d in head || d in tail;
      assert d in r <==> d in head || d in rest || d in RotatedLeft(tail, |rest|);
    }
  }

  /** With an asterisk the list ends up holding every plugin exactly once. */
  lemma AllPluginsOnce(plugins: seq<Name>, tokens: seq<Name>)
    requires tokens != [] && AsteriskAt(plugins, tokens, 1, []) != -1
    ensures NoDup(Loaded(plugins, tokens))
    ensures forall d :: d in Loaded(plugins, tokens) <==> 0 <= d < |plugins|
  {
    hide Named, AsteriskAt, RotatedLeft, Absent;
    EmptyNoDup();
    NamedKeeps(plugins, tokens, 1, []);
    Spliced(Named(plugins, tokens, 1, []), AsteriskAt(plugins, tokens, 1, []), |plugins|);
  }

  lemma EmptyNoDup()
    ensures NoDup<nat>([])
  {}

  lemma HeadTail(s: seq<nat>, at: nat, d: nat)
    requires NoDup(s) && at <= |s| && d in s[..at]
    ensures d !in s[at..]
  {
    var i :| 0 <= i < at && s[i] == d;
    assert forall j :: 0 <= j < |s[at..]| ==> s[at..][j] == s[at + j];
  }

  lemma RotationKeepsOrder(tail: seq<nat>, n: nat)
    requires NoDup(tail)
    ensures RotatedLeft(tail, n) == tail <==> |tail| <= 1 || n % |tail| == 0
  {
    if |tail| > 1 {
      var k := n % |tail|;
      assert RotatedLeft(tail, n)[0] == tail[k];
    }
  }

  /** The decoders named after the asterisk keep their order in the list exactly when there
      is at most one of them or the number of unnamed plugins is a multiple of their number. */
  lemma TailKeepsOrder(plugins: seq<Name>, tokens: seq<Name>)
    requires tokens != [] && AsteriskAt(plugins, tokens, 1, []) != -1
    ensures var named, at := Named(plugins, tokens, 1, []), AsteriskAt(plugins, tokens, 1, []);
      var rest := Absent(|plugins|, named);
      && 0 <= at <= |named|
      && (Loaded(plugins, tokens) == named[..at] + rest + named[at..] <==>
          |named| - at <= 1 || |rest| % (|named| - at) == 0)
  {
    hide Named, AsteriskAt, RotatedLeft, Absent;
    EmptyNoDup();
    NamedKeeps(plugins, tokens, 1, []);
    var named, at := Named(plugins, tokens, 1, []), AsteriskAt(plugins, tokens, 1, []);
    var rest, tail := Absent(|plugins|, named), named[at..];
    var head := named[..at] + rest;
    assert forall i, j :: 0 <= i < j < |tail| ==> tail[i] == named[at + i] && tail[j] == named[at + j];
    RotationKeepsOrder(tail, |rest|);
    var r := RotatedLeft(tail, |rest|);
    if head + r == head + tail {
      assert r == (head + r)[|head|..] == (head + tail)[|head|..] == tail;
    }
  }

  /** One named decoder more than unnamed plugins: `b` moves behind `c`. */
  lemma TailReordered()
    ensures Loaded([[97], [98], [99]], [[120], [42], [98], [99]]) == [0, 2, 1]
  {
    var A: Name, B: Name, C: Name, X: Name := [97], [98], [99], [120];
    var plugins, tokens := [A, B, C], [X, ASTERISK, B, C];
    assert LookupFrom(plugins, B, 0) == 1 by {
      assert Fold(A)[0] == 97 && Fold(B)[0] == 98;
      assert Fold(A) != Fold(B);
      assert LookupFrom(plugins, B, 1) == 1;
    }
    assert LookupFrom(plugins, C, 0) == 2 by {
      assert Fold(A)[0] == 97 && Fold(B)[0] == 98 && Fold(C)[0] == 99;
      assert Fold(A) != Fold(C) && Fold(B) != Fold(C);
      assert LookupFrom(plugins, C, 2) == 2;
      assert LookupFrom(plugins, C, 1) == 2;
    }
    assert B[0] != ASTERISK[0] && C[0] != ASTERISK[0];
    assert Named(plugins, tokens, 4, [1, 2]) == [1, 2];
    assert Named(plugins, tokens, 3, [1]) == [1, 2];
    var none: seq<nat> := [];
    assert none + [1] == [1] && tokens[2] == B;
    assert Named(plugins, tokens, 2, none) == [1, 2];
    assert Named(plugins, tokens, 1, []) == [1, 2];
    assert AsteriskAt(plugins, tokens, 1, []) == 0;
    assert Absent(1, [1, 2]) == [0];
    assert Absent(2, [1, 2]) == [0];
    assert Absent(3, [1, 2]) == [0];
    assert RotatedLeft([1, 2], 1) == [2, 1];
    assert [1, 2][..0] + [0] + [2, 1] == [0, 2, 1];
  }

  // ----- in place

  /** `decoder_t_preference`: a fixed array and a count. */
  class Preference {
    const list: array<nat>
    var decoders: nat

    constructor (capacity: nat)
      ensures list.Length == capacity && decoders == 0 && fresh(list)
    {
      list := new nat[capacity];
      decoders := 0;
    }

    /** `is_listed_decoder`. */
    method IsListed(d: nat) returns (r: bool)
      requires decoders <= list.Length
      ensures r <==> d in list[..decoders]
    {
      var ix := 0;
      while ix < decoders
        invariant 0 <= ix <= decoders
        invariant d !in list[..ix]
      {
        if d == list[ix] {
          return true;
        }
        ix := ix + 1;
      }
      return false;
    }

    /** `load_each_decoder`. */
    method LoadEach(plugins: seq<Name>, name: Name)
      requires decoders <= |plugins| <= list.Length && NoDup(list[..decoders])
      requires forall d :: d in list[..decoders] ==> d < |plugins|
      modifies this`decoders, list
      ensures decoders <= |plugins|
      ensures var d, have := LookupFrom(plugins, name, 0), old(list[..decoders]);
        list[..decoders] == if d == |plugins| || d in have then have else have + [d]
    {
      var d := LookupFrom(plugins, name, 0);
      if d == |plugins| {
        return;
      }
      var listed := IsListed(d);
      if listed {
        return;
      }
      Room(list[..decoders], d, |plugins|);
      list[decoders] := d;
      decoders := decoders + 1;
    }

    /** The first loop of `load_decoders`: the named decoders and the place of the first
        asterisk. */
    method LoadNamed(plugins: seq<Name>, tokens: seq<Name>) returns (asteriskAt: int)
      requires decoders == 0 && |plugins| <= list.Length && tokens != []
      modifies this`decoders, list
      ensures decoders <= list.Length && list[..decoders] == Named(plugins, tokens, 1, [])
      ensures asteriskAt == AsteriskAt(plugins, tokens, 1, [])
    {
      hide LookupFrom;
      asteriskAt := -1;
      EmptyNoDup();
      var ix := 1;
      while ix < |tokens|
        invariant 1 <= ix <= |tokens| && decoders <= |plugins| && asteriskAt >= -1
        invariant NoDup(list[..decoders]) && forall d :: d in list[..decoders] ==> d < |plugins|
        invariant Named(plugins, tokens, ix, list[..decoders]) == Named(plugins, tokens, 1, [])
        invariant (if asteriskAt == -1 then AsteriskAt(plugins, tokens, ix, list[..decoders]) else asteriskAt)
               == AsteriskAt(plugins, tokens, 1, [])
      {
        NamedKeeps(plugins, tokens, ix, list[..decoders]);
        ghost var have := list[..decoders];
        if tokens[ix] != ASTERISK {
          LoadEach(plugins, tokens[ix]);
          assert list[..decoders] == have || list[..decoders] == have + [LookupFrom(plugins, tokens[ix], 0)];
        } else if asteriskAt == -1 {
          asteriskAt := decoders;
        }
        ix := ix + 1;
      }
    }

    /** The second loop of `load_decoders`: the decoders not listed. */
    method FindUnlisted(n: nat) returns (decoder: seq<nat>)
      requires decoders <= list.Length
      ensures decoder == Absent(n, list[..decoders])
    {
      decoder := [];
      var ix := 0;
      while ix < n
        invariant 0 <= ix <= n && decoder == Absent(ix, list[..decoders])
      {
        var listed := IsListed(ix);
        if !listed {
          decoder := decoder + [ix];
        }
        ix := ix + 1;
      }
    }

    /** One turn of the splice loop: `d` takes the place at `p`, and what was there goes
        to the end. */
    method SpliceOne(p: nat, d: nat)
      requires p <= decoders < list.Length
      modifies this`decoders, list
      ensures decoders == old(decoders) + 1
      ensures list[..p + 1] == old(list[..p]) + [d]
      ensures list[p + 1..decoders] == Turned(old(list[p..decoders]))
    {
      ghost var mid := list[p..decoders];
      list[decoders] := list[p];
      decoders := decoders + 1;
      list[p] := d;
      assert list[p + 1..decoders] == Turned(mid);
    }

    method SpliceAt(at: nat, decoder: seq<nat>, ix: nat, ghost head: seq<nat>, ghost tail: seq<nat>)
      requires ix < |decoder| && at + ix <= decoders < list.Length
      requires list[..at + ix] == head + decoder[..ix] && list[at + ix..decoders] == RotatedLeft(tail, ix)
      modifies this`decoders, list
      ensures decoders == old(decoders) + 1
      ensures list[..at + (ix + 1)] == head + decoder[..ix + 1]
      ensures list[at + (ix + 1)..decoders] == RotatedLeft(tail, ix + 1)
    {
      hide RotatedLeft, Turned;
      RotateOnce(tail, ix);
      Longer(head, decoder, ix);
      SpliceOne(at + ix, decoder[ix]);
      assert at + ix + 1 == at + (ix + 1);
    }

    /** The splice loop. */
    method Splice(at: nat, decoder: seq<nat>)
      requires at <= decoders && decoders + |decoder| <= list.Length
      modifies this`decoders, list
      ensures decoders == old(decoders) + |decoder|
      ensures list[..decoders] == old(list[..at]) + decoder + RotatedLeft(old(list[at..decoders]), |decoder|)
    {
      hide RotatedLeft;
      ghost var head, tail := list[..at], list[at..decoders];
      RotateNone(tail);
      assert head + decoder[..0] == head;
      var ix := 0;
      while ix < |decoder|
        invariant 0 <= ix <= |decoder| && decoders == old(decoders) + ix
        invariant list[..at + ix] == head + decoder[..ix]
        invariant list[at + ix..decoders] == RotatedLeft(tail, ix)
      {
        SpliceAt(at, decoder, ix, head, tail);
        ix := ix + 1;
      }
      assert decoder[..ix] == decoder;
      assert list[..decoders] == list[..at + ix] + list[at + ix..decoders];
    }

    /** `load_decoders`. */
    method Load(plugins: seq<Name>, tokens: seq<Name>)
      requires decoders == 0 && |plugins| <= list.Length && tokens != []
      modifies this`decoders, list
      ensures decoders <= list.Length && list[..decoders] == Loaded(plugins, tokens)
    {
      hide Named, AsteriskAt, Absent, RotatedLeft;
      EmptyNoDup();
      NamedKeeps(plugins, tokens, 1, []);
      var asteriskAt := LoadNamed(plugins, tokens);
      if asteriskAt == -1 {
        return;
      }
      var decoder := FindUnlisted(|plugins|);
      ghost var named := list[..decoders];
      label Named:
      SpliceFits(named, asteriskAt, |plugins|);
      Splice(asteriskAt, decoder);
      assert named[..asteriskAt] == old@Named(list[..asteriskAt]);
      assert named[asteriskAt..] == old@Named(list[asteriskAt..decoders]);
    }
  }

  function Turned(s: seq<nat>): seq<nat> {
    if s == [] then [] else s[1..] + [s[0]]
  }

  lemma RotateNone(s: seq<nat>)
    ensures RotatedLeft(s, 0) == s
  {}

  lemma RotateOnce(s: seq<nat>, n: nat)
    ensures RotatedLeft(s, n + 1) == Turned(RotatedLeft(s, n))
  {
    if s != [] {
      var m := |s|;
      NextMod(n, m);
      TurnOnce(s, n % m);
    }
  }

  lemma TurnOnce(s: seq<nat>, k: nat)
    requires k < |s|
    ensures Turned(s[k..] + s[..k]) == if k + 1 == |s| then s[0..] + s[..0] else s[k + 1..] + s[..k + 1]
  {
    assert (s[k..] + s[..k])[0] == s[k];
    assert (s[k..] + s[..k])[1..] == s[k + 1..] + s[..k];
    assert s[k + 1..] + s[..k] + [s[k]] == s[k + 1..] + s[..k + 1];
  }

  lemma Longer(head: seq<nat>, decoder: seq<nat>, ix: nat)
    requires ix < |decoder|
    ensures head + decoder[..ix] + [decoder[ix]] == head + decoder[..ix + 1]
  {}

  lemma NextMod(n: nat, m: nat)
    requires m > 0
    ensures (n + 1) % m == if n % m == m - 1 then 0 else n % m + 1
  {
    var q, r := n / m, n % m;
    if r == m - 1 {
      assert n + 1 == (q + 1) * m;
      Remainder(q + 1, m, 0, n + 1);
    } else {
      Remainder(q, m, r + 1, n + 1);
    }
  }

  lemma Remainder(q: nat, m: nat, r: nat, n: nat)
    requires m > 0 && r < m && n == q * m + r
    ensures n % m == r
  {
    var d := q - n / m;
    assert d * m == n % m - r;
    MultipleBound(d, m);
  }

  lemma SpliceFits(named: seq<nat>, at: nat, n: nat)
    requires NoDup(named) && at <= |named| && forall d :: d in named ==> d < n
    ensures |named| + |Absent(n, named)| <= n
  {
    Spliced(named, at, n);
    Pigeonhole(named[..at] + Absent(n, named) + RotatedLeft(named[at..], |Absent(n, named)|), n);
  }

  /** There are at most n distinct numbers below n. */
  lemma {:induction false} Pigeonhole(s: seq<nat>, n: nat)
    requires NoDup(s) && forall x :: x in s ==> 0 <= x < n
    ensures |s| <= n
  {
    if n == 0 {
      assert forall x :: x in multiset(s) ==> x in s;
      assert multiset(s) == multiset{};
      assert |s| == |multiset(s)|;
    } else if n - 1 in s {
      var j :| 0 <= j < |s| && s[j] == n - 1;
      var r := s[..j] + s[j + 1..];
      assert forall k :: 0 <= k < |r| ==> r[k] == s[if k < j then k else k + 1] && r[k] in s;
      Pigeonhole(r, n - 1);
    } else {
      Pigeonhole(s, n - 1);
    }
  }

  lemma Room(s: seq<nat>, d: nat, n: nat)
    requires NoDup(s) && (forall x :: x in s ==> x < n) && d < n && d !in s
    ensures |s| < n
  {
    NoDupConcat(s, [d]);
    Pigeonhole(s + [d], n);
  }
}
