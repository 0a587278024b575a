/** `getopt.c`: short options in PERMUTE mode.  The scanner keeps its place between calls
    and moves the options it has passed in front of the non-options. */
module Getopt {
  import opened Basics

  // ----- what the option string says

  datatype Spec = Unknown | Plain | Required | Optional

  /** `my_index`: the first place of `c`, or the length. */
  function Index(s: string, c: char): (i: nat)
    ensures i <= |s|
  {
    if s == "" then 0 else if s[0] == c then 0 else 1 + Index(s[1..], c)
  }

  function Lookup(optstring: string, c: char): Spec {
    var i := Index(optstring, c);
    if i == |optstring| || c == ':' then Unknown
    else if i + 1 < |optstring| && optstring[i + 1] == ':' then
      if i + 2 < |optstring| && optstring[i + 2] == ':' then Optional else Required
    else Plain
  }

  /** The option string selects PERMUTE, given that POSIXLY_CORRECT is not set. */
  predicate Permutes(optstring: string) {
    optstring == "" || (optstring[0] != '-' && optstring[0] != '+')
  }

  predicate NonOption(arg: string) {
    arg == "" || arg[0] != '-' || |arg| == 1
  }

  // ----- the reference: one left-to-right pass

  /** What a call returns: the option character and the value of `optarg`. */
  datatype Outcome = Outcome(c: char, arg: Option<string>)

  function Missing(optstring: string): char {
    if optstring != "" && optstring[0] == ':' then ':' else '?'
  }

  /** Does the cluster `chars` end in an option that takes the next element? */
  predicate TakesNext(optstring: string, chars: string) {
    if chars == "" then false
    else match Lookup(optstring, chars[0])
      case Unknown => TakesNext(optstring, chars[1..])
      case Plain => TakesNext(optstring, chars[1..])
      case Required => chars[1..] == ""
      case Optional => false
  }

  /** What the cluster `chars` yields if `next` is the element after it. */
  function Yield(optstring: string, chars: string, next: Option<string>): seq<Outcome> {
    if chars == "" then []
    else
      var c, rest := chars[0], chars[1..];
      match Lookup(optstring, c)
      case Unknown => [Outcome('?', None)] + Yield(optstring, rest, next)
      case Plain => [Outcome(c, None)] + Yield(optstring, rest, next)
      case Optional => [Outcome(c, if rest == "" then None else Some(rest))]
      case Required =>
        if rest != "" then [Outcome(c, Some(rest))]
        else if next.Some? then [Outcome(c, next)]
        else [Outcome(Missing(optstring), None)]
  }

  function Second(args: seq<string>): Option<string> {
    if |args| > 1 then Some(args[1]) else None
  }

  /** Options with their separate arguments and a `--`; everything else; the outcomes. */
  datatype Parse = Parse(opts: seq<string>, rest: seq<string>, outcomes: seq<Outcome>)

  /** The cluster at the head of `args`, of which `chars` are left, and all after it. */
  function ParseCluster(optstring: string, chars: string, args: seq<string>): Parse
    requires args != []
    decreases |args|, 0
  {
    var n := if TakesNext(optstring, chars) && |args| > 1 then 2 else 1;
    var p := ParseArgs(optstring, args[n..]);
    Parse(args[..n] + p.opts, p.rest, Yield(optstring, chars, Second(args)) + p.outcomes)
  }

  function ParseArgs(optstring: string, args: seq<string>): Parse
    decreases |args|, 1
  {
    if args == [] then Parse([], [], [])
    else if args[0] == "--" then Parse([args[0]], args[1..], [])
    else if NonOption(args[0]) then
      var p := ParseArgs(optstring, args[1..]);
      p.(rest := [args[0]] + p.rest)
    else ParseCluster(optstring, args[0][1..], args)
  }

  /** Nothing is lost or doubled. */
  lemma {:induction false} ParsePermutes(optstring: string, args: seq<string>)
    ensures multiset(ParseArgs(optstring, args).opts) + multiset(ParseArgs(optstring, args).rest) == multiset(args)
    decreases |args|
  {
    hide ParseArgs, NonOption;
    if args == [] || args[0] == "--" {
      ParseEnds(optstring, args);
    } else {
      var n, o, r, y := ScanOnce(optstring, args);
      ParsePermutes(optstring, args[n..]);
      var q := ParseArgs(optstring, args[n..]);
      Joined(o, q.opts, r, q.rest);
      assert args == args[..n] + args[n..];
    }
  }

  lemma ParseEnds(optstring: string, args: seq<string>)
    requires args == [] || args[0] == "--"
    ensures multiset(ParseArgs(optstring, args).opts) + multiset(ParseArgs(optstring, args).rest) == multiset(args)
  {
    if args != [] { assert args == [args[0]] + args[1..]; }
  }

  lemma Joined(a: seq<string>, b: seq<string>, c: seq<string>, d: seq<string>)
    ensures multiset(a + b) + multiset(c + d) == (multiset(a) + multiset(c)) + (multiset(b) + multiset(d))
  {}

  // ----- what each form of an option yields

  /** The option string is `p`, the option `c`, which is not in `p`, and then `q`. */
  predicate Declares(optstring: string, p: string, c: char, q: string) {
    optstring == p + [c] + q && c !in p && c != ':'
  }

  lemma {:induction false} FirstPlace(p: string, c: char, q: string)
    requires c !in p
    ensures Index(p + [c] + q, c) == |p|
  {
    var o := p + [c] + q;
    if p != "" {
      FirstPlace(p[1..], c, q);
      assert o[1..] == p[1..] + [c] + q;
    }
  }

  lemma {:induction false} NoPlace(o: string, c: char)
    ensures Index(o, c) == |o| <==> c !in o
  {
    if o != "" {
      NoPlace(o[1..], c);
      assert o == [o[0]] + o[1..];
    }
  }

  /** No colon after the letter: no argument.  One colon: an argument.  Two: an argument
      that may be missing. */
  lemma Declared(o: string, p: string, c: char, q: string)
    requires Declares(o, p, c, q)
    ensures Lookup(o, c) ==
      if q == "" || q[0] != ':' then Plain else if |q| == 1 || q[1] != ':' then Required else Optional
  {
    hide Index;
    FirstPlace(p, c, q);
    assert o[|p| + 1..] == q;
    assert q != "" ==> o[|p| + 1] == q[0];
    assert |q| > 1 ==> o[|p| + 2] == q[1];
  }

  /** An option that takes an argument takes the next element, whatever it looks like. */
  lemma SeparateArgument(o: string, p: string, c: char, q: string, arg: string, rest: seq<string>)
    requires Declares(o, p, c, [':'] + q) && c != '-' && (q == "" || q[0] != ':')
    ensures var all := ParseArgs(o, [['-', c], arg] + rest);
      && all.opts == [['-', c], arg] + ParseArgs(o, rest).opts && all.rest == ParseArgs(o, rest).rest
      && all.outcomes == [Outcome(c, Some(arg))] + ParseArgs(o, rest).outcomes
  {
    hide Lookup;
    Declared(o, p, c, [':'] + q);
    LastOfCluster(o, c, "", [['-', c], arg] + rest);
    assert ([['-', c], arg] + rest)[2..] == rest && ([['-', c], arg] + rest)[..2] == [['-', c], arg];
  }

  /** The rest of the element is the argument of an option that takes one. */
  lemma AttachedArgument(o: string, p: string, c: char, q: string, arg: string, rest: seq<string>)
    requires Declares(o, p, c, [':'] + q) && c != '-' && arg != ""
    ensures var all := ParseArgs(o, [['-', c] + arg] + rest);
      && all.opts == [['-', c] + arg] + ParseArgs(o, rest).opts && all.rest == ParseArgs(o, rest).rest
      && all.outcomes == [Outcome(c, Some(arg))] + ParseArgs(o, rest).outcomes
  {
    hide Lookup;
    Declared(o, p, c, [':'] + q);
    LastOfCluster(o, c, arg, [['-', c] + arg] + rest);
    OneElement(['-', c] + arg, rest);
  }

  /** An optional argument is never taken from the next element. */
  lemma OptionalAlone(o: string, p: string, c: char, q: string, rest: seq<string>)
    requires Declares(o, p, c, [':', ':'] + q) && c != '-'
    ensures var all := ParseArgs(o, [['-', c]] + rest);
      && all.opts == [['-', c]] + ParseArgs(o, rest).opts && all.rest == ParseArgs(o, rest).rest
      && all.outcomes == [Outcome(c, None)] + ParseArgs(o, rest).outcomes
  {
    hide Lookup;
    Declared(o, p, c, [':', ':'] + q);
    LastOfCluster(o, c, "", [['-', c]] + rest);
    OneElement(['-', c], rest);
  }

  /** A missing argument gives `:` if the option string starts with one, else `?`. */
  lemma MissingArgument(o: string, p: string, c: char, q: string)
    requires Declares(o, p, c, [':'] + q) && c != '-' && (q == "" || q[0] != ':')
    ensures ParseArgs(o, [['-', c]]) ==
      Parse([['-', c]], [], [Outcome(if p != "" && p[0] == ':' then ':' else '?', None)])
  {
    hide Lookup;
    Declared(o, p, c, [':'] + q);
    LastOfCluster(o, c, "", [['-', c]]);
    assert [['-', c]][..1] == [['-', c]] && [['-', c]][1..] == [];
    assert o[0] == if p != "" then p[0] else c;
  }

  /** An option without argument yields itself, and the rest of the element follows. */
  lemma PlainOption(o: string, p: string, c: char, q: string, more: string, args: seq<string>)
    requires Declares(o, p, c, q) && (q == "" || q[0] != ':') && args != []
    ensures var all, later := ParseCluster(o, [c] + more, args), ParseCluster(o, more, args);
      all.opts == later.opts && all.rest == later.rest && all.outcomes == [Outcome(c, None)] + later.outcomes
  {
    hide Lookup, ParseArgs;
    Declared(o, p, c, q);
    MoreOfCluster(o, c, more, args);
  }

  /** A character that is no option, or a colon, yields `?`, and the rest follows. */
  lemma UnknownOption(o: string, c: char, more: string, args: seq<string>)
    requires (c !in o || c == ':') && args != []
    ensures var all, later := ParseCluster(o, [c] + more, args), ParseCluster(o, more, args);
      all.opts == later.opts && all.rest == later.rest && all.outcomes == [Outcome('?', None)] + later.outcomes
  {
    hide ParseArgs, Index;
    NoPlace(o, c);
    MoreOfCluster(o, c, more, args);
  }

  /** A used-up element. */
  lemma ClusterEnds(o: string, args: seq<string>)
    requires args != []
    ensures var p, q := ParseCluster(o, "", args), ParseArgs(o, args[1..]);
      p.opts == [args[0]] + q.opts && p.rest == q.rest && p.outcomes == q.outcomes
  {
    hide ParseArgs;
    assert args[..1] == [args[0]];
  }

  /** Only an element of a dash and at least one more character is looked into. */
  lemma PassedOver(o: string, arg: string, rest: seq<string>)
    ensures
      arg == "" || arg == "-" || arg[0] != '-' ==>
        var p, q := ParseArgs(o, [arg] + rest), ParseArgs(o, rest);
        p.opts == q.opts && p.rest == [arg] + q.rest && p.outcomes == q.outcomes
    ensures
      |arg| > 1 && arg[0] == '-' && arg != "--" ==>
        ParseArgs(o, [arg] + rest) == ParseCluster(o, arg[1..], [arg] + rest)
    ensures ParseArgs(o, ["--"] + rest) == Parse(["--"], rest, [])
  {
    hide ParseCluster;
    OneElement(arg, rest);
    OneElement("--", rest);
  }

  lemma OneElement(arg: string, rest: seq<string>)
    ensures ([arg] + rest)[..1] == [arg] && ([arg] + rest)[1..] == rest
  {}

  lemma MoreOfCluster(o: string, c: char, more: string, args: seq<string>)
    requires args != [] && (Lookup(o, c).Unknown? || Lookup(o, c).Plain?)
    ensures var all, later := ParseCluster(o, [c] + more, args), ParseCluster(o, more, args);
      && all.opts == later.opts && all.rest == later.rest
      && all.outcomes == [Outcome(if Lookup(o, c).Plain? then c else '?', None)] + later.outcomes
  {
    hide Lookup, ParseArgs;
    assert ([c] + more)[0] == c && ([c] + more)[1..] == more;
    var y := [Outcome(if Lookup(o, c).Plain? then c else '?', None)];
    assert Yield(o, [c] + more, Second(args)) == y + Yield(o, more, Second(args));
    assert TakesNext(o, [c] + more) == TakesNext(o, more);
    var n := if TakesNext(o, more) && |args| > 1 then 2 else 1;
    var q := ParseArgs(o, args[n..]);
    assert y + Yield(o, more, Second(args)) + q.outcomes == y + (Yield(o, more, Second(args)) + q.outcomes);
  }

  /** An element of one option and `arg`. */
  lemma LastOfCluster(o: string, c: char, arg: string, args: seq<string>)
    requires c != '-' && args != [] && args[0] == ['-', c] + arg
    requires Lookup(o, c).Required? || Lookup(o, c).Optional?
    ensures var n := if Lookup(o, c).Required? && arg == "" && |args| > 1 then 2 else 1;
      var q := ParseArgs(o, args[n..]);
      ParseArgs(o, args) == Parse(args[..n] + q.opts, q.rest, Yield(o, [c] + arg, Second(args)) + q.outcomes)
  {
    hide Lookup, Yield;
    assert args[0][1] == c;
    assert args[0][1..] == [c] + arg;
    ClusterStarts(o, args);
    hide ParseArgs;
    assert ([c] + arg)[1..] == arg;
  }

  // ----- the parse is a stable partition

  ghost predicate Rising(s: seq<nat>) {
    forall i, j :: 0 <= i < j < |s| ==> s[i] < s[j]
  }

  /** Two increasing lists that share out the numbers below n. */
  ghost predicate Shares(a: seq<nat>, b: seq<nat>, n: nat) {
    && Rising(a) && Rising(b)
    && (forall k: nat :: k in a || k in b <==> k < n)
    && (forall k: nat :: !(k in a && k in b))
  }

  /** The elements of `args` at the places `p`. */
  ghost function At(args: seq<string>, p: seq<nat>): (r: seq<string>)
    ensures |r| == |p|
  {
    seq(|p|, i requires 0 <= i < |p| => if p[i] < |args| then args[p[i]] else "")
  }

  ghost function Upto(n: nat): (r: seq<nat>)
    ensures |r| == n
  {
    seq(n, i => i)
  }

  ghost function Shifted(p: seq<nat>, n: nat): (r: seq<nat>)
    ensures |r| == |p|
  {
    seq(|p|, i requires 0 <= i < |p| => p[i] + n)
  }

  lemma ShiftedIn(p: seq<nat>, n: nat, k: nat)
    ensures k in Shifted(p, n) <==> k >= n && k - n in p
  {
    if k >= n && k - n in p {
      var i :| 0 <= i < |p| && p[i] == k - n;
      assert Shifted(p, n)[i] == k;
    }
    if k in Shifted(p, n) {
      var i :| 0 <= i < |p| && Shifted(p, n)[i] == k;
      assert p[i] == k - n;
    }
  }

  lemma UptoIn(n: nat, k: nat)
    ensures k in Upto(n) <==> k < n
  {
    if k < n { assert Upto(n)[k] == k; }
  }

  /** Putting n elements in front of the first part. */
  lemma SharesMore(a: seq<nat>, b: seq<nat>, m: nat, n: nat)
    requires Shares(a, b, m)
    ensures Shares(Upto(n) + Shifted(a, n), Shifted(b, n), m + n)
    ensures Shares(Shifted(a, n), Upto(n) + Shifted(b, n), m + n)
  {
    forall k: nat
      ensures k in Shifted(a, n) <==> k >= n && k - n in a
      ensures k in Shifted(b, n) <==> k >= n && k - n in b
      ensures k in Upto(n) <==> k < n
    {
      ShiftedIn(a, n, k);
      ShiftedIn(b, n, k);
      UptoIn(n, k);
    }
  }

  lemma AtMore(args: seq<string>, n: nat, p: seq<nat>)
    requires n <= |args|
    ensures At(args, Upto(n)) == args[..n]
    ensures At(args, Shifted(p, n)) == At(args[n..], p)
    ensures At(args, Upto(n) + Shifted(p, n)) == args[..n] + At(args[n..], p)
  {}

  /** The options with their arguments and the rest are each in the original order, and
      every element is in exactly one of them. */
  lemma {:induction false} StablePartition(optstring: string, args: seq<string>) returns (o: seq<nat>, r: seq<nat>)
    ensures Shares(o, r, |args|)
    ensures ParseArgs(optstring, args).opts == At(args, o)
    ensures ParseArgs(optstring, args).rest == At(args, r)
    decreases |args|
  {
    hide Shares;
    NoneShared();
    if args == [] {
      o, r := [], [];
    } else if args[0] == "--" {
      AllShared(|args| - 1);
      SharesMore([], Upto(|args| - 1), |args| - 1, 1);
      AtMore(args, 1, []);
      AtMore(args, 1, Upto(|args| - 1));
      AtMore(args[1..], |args| - 1, []);
      o, r := Upto(1) + Shifted([], 1), Shifted(Upto(|args| - 1), 1);
    } else if NonOption(args[0]) {
      var o1, r1 := StablePartition(optstring, args[1..]);
      SharesMore(o1, r1, |args| - 1, 1);
      AtMore(args, 1, o1);
      AtMore(args, 1, r1);
      o, r := Shifted(o1, 1), Upto(1) + Shifted(r1, 1);
    } else {
      ClusterStarts(optstring, args);
      hide ParseArgs, TakesNext, Yield, NonOption;
      var n := if TakesNext(optstring, args[0][1..]) && |args| > 1 then 2 else 1;
      var o1, r1 := StablePartition(optstring, args[n..]);
      SharesMore(o1, r1, |args| - n, n);
      AtMore(args, n, o1);
      AtMore(args, n, r1);
      o, r := Upto(n) + Shifted(o1, n), Shifted(r1, n);
    }
  }

  lemma NoneShared()
    ensures Shares([], [], 0)
  {}

  lemma AllShared(n: nat)
    ensures Shares([], Upto(n), n)
  {
    forall k: nat ensures k in Upto(n) <==> k < n { UptoIn(n, k); }
  }

  /** Where the scan meets `--`, not counting one that is an option's argument. */
  function ScannedDash(optstring: string, args: seq<string>): (d: Option<nat>)
    ensures d.Some? ==> d.value < |args| && args[d.value] == "--"
    decreases |args|
  {
    if args == [] then None
    else if args[0] == "--" then Some(0)
    else
      var n := if !NonOption(args[0]) && TakesNext(optstring, args[0][1..]) && |args| > 1 then 2 else 1;
      var d := ScannedDash(optstring, args[n..]);
      if d.None? then None else Some(d.value + n)
  }

  /** The rest is non-options, followed by everything after the `--` that the scan met;
      the options end in that `--`. */
  lemma {:induction false} RestIsNonOptions(optstring: string, args: seq<string>)
    ensures EndsAt(ParseArgs(optstring, args), args, ScannedDash(optstring, args))
    decreases |args|
  {
    hide EndsAt, ParseArgs, ScannedDash, NonOption;
    if args == [] || args[0] == "--" {
      EndsAtOnce(optstring, args);
    } else {
      var n, o, r, y := ScanOnce(optstring, args);
      RestIsNonOptions(optstring, args[n..]);
      EndsAtMore(ParseArgs(optstring, args[n..]), args, n, ScannedDash(optstring, args[n..]), o, r, y);
    }
  }

  lemma EndsAtOnce(optstring: string, args: seq<string>)
    requires args == [] || args[0] == "--"
    ensures EndsAt(ParseArgs(optstring, args), args, ScannedDash(optstring, args))
  {}

  /** The first non-option or cluster. */
  lemma ScanOnce(optstring: string, args: seq<string>) returns (n: nat, o: seq<string>, r: seq<string>, y: seq<Outcome>)
    requires args != [] && args[0] != "--"
    ensures 0 < n <= |args| && multiset(o) + multiset(r) == multiset(args[..n])
    ensures forall a :: a in r ==> NonOption(a)
    ensures var q, d := ParseArgs(optstring, args[n..]), ScannedDash(optstring, args[n..]);
      && ParseArgs(optstring, args) == Parse(o + q.opts, r + q.rest, y + q.outcomes)
      && ScannedDash(optstring, args) == if d.Some? then Some(d.value + n) else None
  {
    hide TakesNext, Yield, Lookup, ParseArgs, ScannedDash, NonOption;
    DashNext(optstring, args);
    if NonOption(args[0]) {
      NonOptionFirst(optstring, args);
      n, o, r, y := 1, [], [args[0]], [];
      assert args[..1] == [args[0]];
    } else {
      ClusterStarts(optstring, args);
      n := if TakesNext(optstring, args[0][1..]) && |args| > 1 then 2 else 1;
      o, r, y := args[..n], [], Yield(optstring, args[0][1..], Second(args));
    }
    var q := ParseArgs(optstring, args[n..]);
    assert [] + q.opts == q.opts && [] + q.rest == q.rest && [] + q.outcomes == q.outcomes;
  }

  lemma NonOptionFirst(optstring: string, args: seq<string>)
    requires args != [] && args[0] != "--" && NonOption(args[0])
    ensures var q := ParseArgs(optstring, args[1..]);
      ParseArgs(optstring, args) == Parse(q.opts, [args[0]] + q.rest, q.outcomes)
  {}

  lemma DashNext(optstring: string, args: seq<string>)
    requires args != [] && args[0] != "--"
    ensures NonOption(args[0]) || args[0] != ""
    ensures
      var n := if !NonOption(args[0]) && TakesNext(optstring, args[0][1..]) && |args| > 1 then 2 else 1;
      var d := ScannedDash(optstring, args[n..]);
      ScannedDash(optstring, args) == if d.Some? then Some(d.value + n) else None
  {
    hide TakesNext;
  }

  ghost predicate EndsAt(p: Parse, args: seq<string>, d: Option<nat>)
    requires d.Some? ==> d.value < |args|
  {
    var after := if d.Some? then args[d.value + 1..] else [];
    && |after| <= |p.rest| && p.rest[|p.rest| - |after|..] == after
    && (forall i :: 0 <= i < |p.rest| - |after| ==> NonOption(p.rest[i]))
    && (d.Some? ==> p.opts != [] && p.opts[|p.opts| - 1] == "--")
  }

  lemma EndsAtMore(p: Parse, args: seq<string>, n: nat, d: Option<nat>, o: seq<string>, r: seq<string>, y: seq<Outcome>)
    requires n <= |args| && (d.Some? ==> d.value < |args| - n) && EndsAt(p, args[n..], d)
    requires forall a :: a in r ==> NonOption(a)
    ensures EndsAt(Parse(o + p.opts, r + p.rest, y + p.outcomes), args, if d.Some? then Some(d.value + n) else None)
  {
    hide NonOption;
    if d.Some? { assert args[n..][d.value + 1..] == args[d.value + n + 1..]; }
  }

  function Overwritten(a: seq<string>, at: nat, block: seq<string>): (b: seq<string>)
    requires at + |block| <= |a|
    ensures |b| == |a|
  {
    a[..at] + block + a[at + |block|..]
  }

  lemma OverwrittenIs(a: seq<string>, b: seq<string>, at: nat, block: seq<string>)
    requires at + |block| <= |a| == |b|
    requires forall k :: 0 <= k < |a| && !(at <= k < at + |block|) ==> b[k] == a[k]
    requires forall k :: at <= k < at + |block| ==> b[k] == block[k - at]
    ensures b == Overwritten(a, at, block)
  {}

  /** Both copies of `exchange` together. */
  lemma BlocksTraded(a: seq<string>, first: nat, last: nat, end: nat)
    requires first <= last <= end <= |a|
    ensures Overwritten(Overwritten(a, first, a[last..end]), first + end - last, a[first..last])
         == a[..first] + a[last..end] + a[first..last] + a[end..]
  {
    var b := Overwritten(a, first, a[last..end]);
    assert b[..first + end - last] == a[..first] + a[last..end];
    assert b[end..] == a[end..];
  }

  /** The layout after an exchange, block by block. */
  lemma Traded(a: seq<string>, first: nat, last: nat, end: nat)
    requires 1 <= first <= last <= end <= |a|
    ensures var b := a[..first] + a[last..end] + a[first..last] + a[end..];
      var mid := first + end - last;
      && |b| == |a| && b[0] == a[0] && b[1..mid] == a[1..first] + a[last..end]
      && b[mid..end] == a[first..last] && b[end..] == a[end..]
      && b[mid..] == a[first..last] + a[end..]
  {}

  lemma SkipOne(optstring: string, a: seq<string>, first: nat, ind: nat)
    requires first <= ind < |a| && NonOption(a[ind])
    ensures var p, q := ParseArgs(optstring, a[ind..]), ParseArgs(optstring, a[ind + 1..]);
      && p.opts == q.opts && p.outcomes == q.outcomes
      && a[first..ind] + p.rest == a[first..ind + 1] + q.rest
  {
    assert a[ind..][1..] == a[ind + 1..];
  }

  lemma DashDash(optstring: string, a: seq<string>, ind: nat)
    requires ind < |a| && a[ind] == "--"
    ensures ParseArgs(optstring, a[ind..]) == Parse(a[ind..ind + 1], a[ind + 1..], [])
  {
    assert a[ind..][1..] == a[ind + 1..];
  }

  lemma ClusterStarts(optstring: string, args: seq<string>)
    requires args != [] && args[0] != "--" && !NonOption(args[0])
    ensures ParseArgs(optstring, args) == ParseCluster(optstring, args[0][1..], args)
  {}

  lemma AtEnd(optstring: string, a: seq<string>, first: nat)
    requires 1 <= first <= |a|
    ensures ParseArgs(optstring, a[|a|..]) == Parse([], [], [])
    ensures a[1..] == a[1..first] + a[first..]
  {}

  /** Is the first character of the cluster followed by more of it? */
  predicate Within(optstring: string, chars: string)
    requires chars != ""
  {
    chars[1..] != "" && (Lookup(optstring, chars[0]).Unknown? || Lookup(optstring, chars[0]).Plain?)
  }

  /** How many elements go with the last option of a cluster. */
  function Width(optstring: string, chars: string, args: seq<string>): nat
    requires chars != ""
  {
    if Lookup(optstring, chars[0]).Required? && chars[1..] == "" && |args| > 1 then 2 else 1
  }

  lemma StepWithin(optstring: string, chars: string, args: seq<string>)
    requires chars != "" && args != [] && Within(optstring, chars)
    ensures var p, q := ParseCluster(optstring, chars, args), ParseCluster(optstring, chars[1..], args);
      p.opts == q.opts && p.rest == q.rest && p.outcomes == [Result(optstring, chars, Second(args))] + q.outcomes
  {
    hide ParseArgs, Lookup;
    var rest := chars[1..];
    assert Yield(optstring, chars, Second(args)) ==
      [Result(optstring, chars, Second(args))] + Yield(optstring, rest, Second(args));
    assert TakesNext(optstring, chars) == TakesNext(optstring, rest);
    var n := if TakesNext(optstring, rest) && |args| > 1 then 2 else 1;
    var q := ParseArgs(optstring, args[n..]);
    assert [Result(optstring, chars, Second(args))] + Yield(optstring, rest, Second(args)) + q.outcomes
        == [Result(optstring, chars, Second(args))] + (Yield(optstring, rest, Second(args)) + q.outcomes);
  }

  lemma StepLast(optstring: string, chars: string, args: seq<string>)
    requires chars != "" && args != [] && !Within(optstring, chars)
    ensures var n := Width(optstring, chars, args);
      n <= |args| &&
      var p, q := ParseCluster(optstring, chars, args), ParseArgs(optstring, args[n..]);
      p.opts == args[..n] + q.opts && p.rest == q.rest &&
      p.outcomes == [Result(optstring, chars, Second(args))] + q.outcomes
  {
    hide ParseArgs, Lookup;
    assert TakesNext(optstring, "") == false;
    assert Yield(optstring, chars, Second(args)) == [Result(optstring, chars, Second(args))];
  }

  /** The last outcome of a cluster. */
  function Result(optstring: string, chars: string, next: Option<string>): Outcome
    requires chars != ""
  {
    var c, rest := chars[0], chars[1..];
    match Lookup(optstring, c)
    case Unknown => Outcome('?', None)
    case Plain => Outcome(c, None)
    case Optional => Outcome(c, if rest == "" then None else Some(rest))
    case Required =>
      if rest != "" then Outcome(c, Some(rest))
      else if next.Some? then Outcome(c, next)
      else Outcome(Missing(optstring), None)
  }

  // ----- the scanner

  class Scanner {
    const argv: array<string>
    var optind: nat
    var firstNonopt: nat
    var lastNonopt: nat
    var nextchar: string
    var optarg: Option<string>
    var optopt: char

    constructor (argv: array<string>)
      ensures this.argv == argv && optind == 0 && nextchar == ""
    {
      this.argv := argv;
      optind, firstNonopt, lastNonopt := 0, 0, 0;
      nextchar, optarg, optopt := "", None, '?';
    }

    /** What is left of the scan. */
    ghost function Remaining(optstring: string): Parse
      reads this, argv
      requires optind <= argv.Length && (nextchar != "" ==> optind < argv.Length)
    {
      if nextchar == "" then ParseArgs(optstring, argv[optind..])
      else ParseCluster(optstring, nextchar, argv[optind..])
    }

    /** argv is: the program, options, skipped non-options, newer options, the unscanned
        rest; in the middle of a cluster the rest starts with that cluster. */
    ghost predicate Between(optstring: string, goal: Parse, done: seq<Outcome>)
      reads this, argv
    {
      && 1 <= firstNonopt <= lastNonopt <= optind <= argv.Length
      && (nextchar != "" ==> optind < argv.Length)
      && var p := Remaining(optstring);
      && goal.opts == argv[1..firstNonopt] + argv[lastNonopt..optind] + p.opts
      && goal.rest == argv[firstNonopt..lastNonopt] + p.rest
      && goal.outcomes == done + p.outcomes
    }

    /** `exchange`: the block [first, last) and the block [last, optind) trade places. */
    method Exchange()
      requires 1 <= firstNonopt <= lastNonopt <= optind <= argv.Length
      modifies this`firstNonopt, this`lastNonopt, argv
      ensures argv[..] ==
        old(argv[..firstNonopt] + argv[lastNonopt..optind] + argv[firstNonopt..lastNonopt] + argv[optind..])
      ensures firstNonopt == old(firstNonopt) + optind - old(lastNonopt) && lastNonopt == optind
    {
      ghost var a := argv[..];
      var temp := argv[firstNonopt..lastNonopt];
      assert temp == a[firstNonopt..lastNonopt];
      CopyDown(lastNonopt, firstNonopt, optind - lastNonopt);
      CopyFrom(temp, firstNonopt + optind - lastNonopt);
      BlocksTraded(a, firstNonopt, lastNonopt, optind);
      firstNonopt := firstNonopt + optind - lastNonopt;
      lastNonopt := optind;
    }

    /** `my_bcopy` within argv, to a lower place; the regions may overlap. */
    method CopyDown(from: nat, to: nat, n: nat)
      requires to <= from && from + n <= argv.Length
      modifies argv
      ensures argv[..] == Overwritten(old(argv[..]), to, old(argv[..])[from..from + n])
    {
      ghost var a := argv[..];
      var i := 0;
      while i < n
        invariant 0 <= i <= n
        invariant forall k :: 0 <= k < argv.Length && !(to <= k < to + i) ==> argv[k] == a[k]
        invariant forall k :: to <= k < to + i ==> argv[k] == a[k + (from - to)]
      {
        argv[to + i] := argv[from + i];
        i := i + 1;
      }
      OverwrittenIs(a, argv[..], to, a[from..from + n]);
    }

    /** `my_bcopy` from a separate block. */
    method CopyFrom(block: seq<string>, to: nat)
      requires to + |block| <= argv.Length
      modifies argv
      ensures argv[..] == Overwritten(old(argv[..]), to, block)
    {
      ghost var a := argv[..];
      var i := 0;
      while i < |block|
        invariant 0 <= i <= |block|
        invariant forall k :: 0 <= k < argv.Length && !(to <= k < to + i) ==> argv[k] == a[k]
        invariant forall k :: to <= k < to + i ==> argv[k] == block[k - to]
      {
        argv[to + i] := block[i];
        i := i + 1;
      }
      OverwrittenIs(a, argv[..], to, block);
    }

    /** The options are in front and the skipped non-options end where the scan is. */
    ghost predicate Settled(optstring: string, goal: Parse, done: seq<Outcome>)
      reads this, argv
    {
      && 1 <= firstNonopt <= optind <= argv.Length
      && var p := ParseArgs(optstring, argv[optind..]);
      && goal.opts == argv[1..firstNonopt] + p.opts
      && goal.rest == argv[firstNonopt..optind] + p.rest
      && goal.outcomes == done + p.outcomes
    }

    /** The scan is over: options in front, and `optind` is where the rest starts. */
    ghost predicate Finished(goal: Parse, done: seq<Outcome>)
      reads this, argv
    {
      && 1 <= argv.Length && argv[1..] == goal.opts + goal.rest
      && optind == 1 + |goal.opts| && goal.outcomes == done
    }

    method Settle(optstring: string, ghost goal: Parse, ghost done: seq<Outcome>)
      requires Between(optstring, goal, done) && nextchar == ""
      modifies this`firstNonopt, this`lastNonopt, argv
      ensures Settled(optstring, goal, done) && argv[0] == old(argv[0])
    {
      hide ParseArgs, ParseCluster;
      ghost var a := argv[..];
      if firstNonopt != lastNonopt && lastNonopt != optind {
        Traded(a, firstNonopt, lastNonopt, optind);
        Exchange();
      } else if lastNonopt != optind {
        assert a[1..optind] == a[1..firstNonopt] + a[lastNonopt..optind];
        assert a[firstNonopt..lastNonopt] == [] && a[optind..optind] == [];
        firstNonopt := optind;
      }
    }

    method SkipNonOptions(optstring: string, ghost goal: Parse, ghost done: seq<Outcome>)
      requires Settled(optstring, goal, done)
      modifies this`optind, this`lastNonopt
      ensures Settled(optstring, goal, done) && lastNonopt == optind && old(optind) <= optind
      ensures optind < argv.Length ==> !NonOption(argv[optind])
    {
      hide ParseCluster;
      while optind < argv.Length && NonOption(argv[optind])
        invariant Settled(optstring, goal, done) && old(optind) <= optind
        decreases argv.Length - optind
      {
        SkipOne(optstring, argv[..], firstNonopt, optind);
        optind := optind + 1;
      }
      lastNonopt := optind;
    }

    /** The handling of `--`. */
    method EndOfOptions(optstring: string, ghost goal: Parse, ghost done: seq<Outcome>)
      requires Settled(optstring, goal, done) && lastNonopt == optind < argv.Length && argv[optind] == "--"
      modifies this`optind, this`firstNonopt, this`lastNonopt, argv
      ensures optind == lastNonopt == argv.Length && 1 <= firstNonopt <= argv.Length && argv[0] == old(argv[0])
      ensures goal.opts == argv[1..firstNonopt] && goal.rest == argv[firstNonopt..] && goal.outcomes == done
    {
      hide ParseArgs, Scanner.Settled;
      AtDash(optstring, goal, done);
      ghost var a, first, last := argv[..], firstNonopt, lastNonopt;
      optind := optind + 1;
      if firstNonopt != lastNonopt && lastNonopt != optind {
        Traded(a, firstNonopt, lastNonopt, optind);
        Exchange();
      } else if firstNonopt == lastNonopt {
        assert a[1..last + 1] == a[1..last] + a[last..last + 1] && a[first..last] == [];
        firstNonopt := optind;
      }
      lastNonopt := argv.Length;
      optind := argv.Length;
    }

    lemma AtDash(optstring: string, goal: Parse, done: seq<Outcome>)
      requires Settled(optstring, goal, done) && optind < argv.Length && argv[optind] == "--"
      ensures 1 <= firstNonopt <= optind && goal.outcomes == done
      ensures goal.opts == argv[..][1..firstNonopt] + argv[..][optind..optind + 1]
      ensures goal.rest == argv[..][firstNonopt..optind] + argv[..][optind + 1..]
    {
      hide ParseArgs;
      DashDash(optstring, argv[..], optind);
      assert argv[..][optind..] == argv[optind..];
      assert argv[..][1..firstNonopt] == argv[1..firstNonopt];
      assert argv[..][firstNonopt..optind] == argv[firstNonopt..optind];
    }

    /** Find the next cluster, or the end. */
    method Advance(optstring: string, ghost goal: Parse, ghost done: seq<Outcome>) returns (eof: bool)
      requires Between(optstring, goal, done) && nextchar == ""
      modifies this`optind, this`firstNonopt, this`lastNonopt, this`nextchar, argv
      ensures argv[0] == old(argv[0])
      ensures eof ==> Finished(goal, done)
      ensures !eof ==> Between(optstring, goal, done) && nextchar != "" && optind >= old(optind)
    {
      hide ParseCluster, ParseArgs;
      Settle(optstring, goal, done);
      SkipNonOptions(optstring, goal, done);
      if optind != argv.Length && argv[optind] == "--" {
        EndOfOptions(optstring, goal, done);
      }
      if optind == argv.Length {
        AtEnd(optstring, argv[..], firstNonopt);
        if firstNonopt != lastNonopt {
          optind := firstNonopt;
        }
        return true;
      }
      ClusterStarts(optstring, argv[optind..]);
      assert argv[optind..optind] == [];
      nextchar := argv[optind][1..];
      return false;
    }

    /** Look at and handle the next option character. */
    method Decode(optstring: string) returns (c: char)
      requires nextchar != "" && optind < argv.Length
      modifies this`optind, this`nextchar, this`optarg, this`optopt
      ensures Outcome(c, optarg) == Result(optstring, old(nextchar), Second(argv[old(optind)..]))
      ensures Within(optstring, old(nextchar)) ==> optind == old(optind) && nextchar == old(nextchar)[1..]
      ensures !Within(optstring, old(nextchar)) ==>
        nextchar == "" && optind == old(optind) + Width(optstring, old(nextchar), argv[old(optind)..])
      ensures optopt == old(nextchar)[0] || (optopt == old(optopt) && c == old(nextchar)[0])
    {
      hide Index;
      optarg := None;
      c := nextchar[0];
      nextchar := nextchar[1..];
      var temp := Index(optstring, c);
      if nextchar == "" {
        optind := optind + 1;
      }
      if temp == |optstring| || c == ':' {
        optopt := c;
        c := '?';
      } else if temp + 1 < |optstring| && optstring[temp + 1] == ':' {
        if temp + 2 < |optstring| && optstring[temp + 2] == ':' {
          if nextchar != "" {
            optarg := Some(nextchar);
            optind := optind + 1;
          } else {
            optarg := None;
          }
          nextchar := "";
        } else {
          if nextchar != "" {
            optarg := Some(nextchar);
            optind := optind + 1;
          } else if optind == argv.Length {
            optopt := c;
            c := Missing(optstring);
          } else {
            optarg := Some(argv[optind]);
            optind := optind + 1;
          }
          nextchar := "";
        }
      }
    }

    method Character(optstring: string, ghost goal: Parse, ghost done: seq<Outcome>) returns (c: char)
      requires Between(optstring, goal, done) && nextchar != ""
      modifies this`optind, this`nextchar, this`optarg, this`optopt
      ensures Between(optstring, goal, done + [Outcome(c, optarg)])
      ensures
        || (optind == old(optind) && nextchar != "" && |nextchar| < |old(nextchar)|)
        || (optind > old(optind) && nextchar == "")
    {
      hide ParseArgs, ParseCluster, Result, Lookup;
      ghost var chars, args := nextchar, argv[optind..];
      if Within(optstring, chars) {
        StepWithin(optstring, chars, args);
      } else {
        StepLast(optstring, chars, args);
      }
      c := Decode(optstring);
      ghost var n := optind - old(optind);
      assert argv[optind..] == args[n..] && argv[lastNonopt..optind] == argv[lastNonopt..old(optind)] + args[..n];
      Append(done, Outcome(c, optarg), Remaining(optstring).outcomes);
    }

    /** One call of `getopt`, for an option string that selects PERMUTE. */
    method Call(optstring: string, ghost goal: Parse, ghost done: seq<Outcome>) returns (eof: bool, c: char)
      requires argv.Length >= 1 && Permutes(optstring)
      requires if optind == 0 then nextchar == "" && done == [] && goal == ParseArgs(optstring, argv[1..])
               else Between(optstring, goal, done)
      modifies this`optind, this`firstNonopt, this`lastNonopt, this`nextchar, this`optarg, this`optopt, argv
      ensures argv[0] == old(argv[0])
      ensures eof ==> Finished(goal, done)
      ensures !eof ==> 0 < optind <= argv.Length && Between(optstring, goal, done + [Outcome(c, optarg)])
      ensures !eof ==> Progress(argv.Length, old(optind), old(nextchar), optind, nextchar)
    {
      hide ParseArgs, ParseCluster;
      c := '?';
      optarg := None;
      if optind == 0 {
        firstNonopt, lastNonopt, optind := 1, 1, 1;
        nextchar := "";
        assert goal.opts == argv[1..1] + argv[1..1] + goal.opts && goal.rest == argv[1..1] + goal.rest;
        assert goal.outcomes == [] + goal.outcomes;
      }
      eof := false;
      if nextchar == "" {
        eof := Advance(optstring, goal, done);
        if eof {
          return;
        }
      }
      c := Character(optstring, goal, done);
    }
  }

  /** Decreases with every call, or stays while the characters of a cluster go. */
  function Measure(argc: nat, optind: nat, nextchar: string): int {
    2 * (argc - optind) + if nextchar == "" then 1 else 0
  }

  predicate Progress(argc: nat, optind: nat, nextchar: string, optind': nat, nextchar': string) {
    var m, m' := Measure(argc, optind, nextchar), Measure(argc, optind', nextchar');
    m' < m || (m' == m && |nextchar'| < |nextchar|)
  }

  lemma Append(a: seq<Outcome>, x: Outcome, b: seq<Outcome>)
    ensures a + [x] + b == a + ([x] + b)
  {}

  /** Calling `getopt` until it returns EOF ends, yields the outcomes of a left-to-right
      pass, and leaves the options in front of the rest, both in their original order. */
  method Scan(argv: array<string>, optstring: string) returns (s: Scanner, outcomes: seq<Outcome>)
    requires argv.Length >= 1 && Permutes(optstring)
    modifies argv
    ensures var p := ParseArgs(optstring, old(argv[1..]));
      && argv[..] == [old(argv[0])] + p.opts + p.rest
      && s.optind == 1 + |p.opts|
      && outcomes == p.outcomes
  {
    hide ParseArgs, ParseCluster, Scanner.Between;
    ghost var goal := ParseArgs(optstring, argv[1..]);
    s := new Scanner(argv);
    outcomes := [];
    var eof, c := false, '?';
    eof, c := s.Call(optstring, goal, outcomes);
    while !eof
      invariant s.argv == argv && fresh(s) && argv[0] == old(argv[0])
      invariant eof ==> s.Finished(goal, outcomes)
      invariant !eof ==> 0 < s.optind <= argv.Length && s.Between(optstring, goal, outcomes + [Outcome(c, s.optarg)])
      decreases !eof, Measure(argv.Length, s.optind, s.nextchar), |s.nextchar|
    {
      outcomes := outcomes + [Outcome(c, s.optarg)];
      eof, c := s.Call(optstring, goal, outcomes);
    }
    assert argv[..] == [argv[0]] + argv[1..];
    assert [argv[0]] + goal.opts + goal.rest == [argv[0]] + (goal.opts + goal.rest);
  }
}
