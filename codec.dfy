/** The canonical call-key codec of `Cache.key_from_function_call` and
    `Cache.function_call_from_key` (caching.py; cache.py carries a verbatim copy
    under the name `make_function_call_key`).

    A call is given by the string renders (`str(x)`) of its positional
    arguments and a dictionary from keyword names to renders. */
module Codec {
  import opened Base

  const FunSep: string := ":?:"
  const TypeSep: string := ":&:"
  const ParamSep: string := ":::"

  /** What the encoder reads from `func.__code__`: `co_posonlyargcount`
      and the declared parameter names `co_varnames[:nargs]`, positional ones
      first, keyword-only ones last. */
  datatype Signature = Signature(posOnly: nat, names: seq<string>)

  /** A function as the encoder sees it: `__module__`, `__name__`, signature. */
  datatype Func = Func(moduleName: string, name: string, sig: Signature)

  /** An ordered dictionary, in insertion order. */
  type Pairs = seq<(string, string)>

  /** The positional part and the keyword part of a key. */
  datatype Binding = Binding(args: seq<string>, kwargs: Pairs)

  /** What Python guarantees of every code object: no more positional-only
      parameters than parameters, and no parameter name twice. */
  predicate WellFormed(sig: Signature) {
    && sig.posOnly <= |sig.names|
    && forall i, j :: 0 <= i < j < |sig.names| ==> sig.names[i] != sig.names[j]
  }

  // ---------------------------------------------------------------------
  // Rebinding (`all_as_kwargs`)
  // ---------------------------------------------------------------------

  /** The name visited at step `i` of the walk from the last parameter to the first. */
  function Visited(sig: Signature, i: nat): string
    requires i < |sig.names|
  {
    sig.names[|sig.names| - 1 - i]
  }

  /** One step of the walk, in the state `b`: a keyword argument wins; the
      walk stops (`None`) once the parameters not yet bound are as many as the
      positional-only ones; otherwise the last positional argument, if any is
      left, is moved into the keyword part. */
  function Step(sig: Signature, kwargs: map<string, string>, i: nat, b: Binding): Option<Binding>
    requires i < |sig.names|
  {
    var name := Visited(sig, i);
    if name in kwargs then Some(Binding(b.args, b.kwargs + [(name, kwargs[name])]))
    else if |sig.names| - |b.kwargs| == sig.posOnly then None
    else if |b.args| == 0 then Some(b)
    else Some(Binding(b.args[..|b.args| - 1], b.kwargs + [(name, b.args[|b.args| - 1])]))
  }

  /** The rest of the walk from step `i` on. */
  function RebindFrom(sig: Signature, kwargs: map<string, string>, i: nat, b: Binding): Binding
    decreases |sig.names| - i
  {
    if i >= |sig.names| then b
    else match Step(sig, kwargs, i, b)
      case None => b
      case Some(b') => RebindFrom(sig, kwargs, i + 1, b')
  }

  /** The binding `all_as_kwargs` computes for a call. */
  function Rebind(sig: Signature, args: seq<string>, kwargs: map<string, string>): Binding {
    RebindFrom(sig, kwargs, 0, Binding(args, []))
  }

  /** `all_as_kwargs`: pops positional arguments into the keyword dictionary,
      walking the declared parameters from the last to the first. */
  method AllAsKwargs(sig: Signature, args: seq<string>, kwargs: map<string, string>)
    returns (inArgs: seq<string>, inKwargs: Pairs)
    requires WellFormed(sig)
    ensures Binding(inArgs, inKwargs) == Rebind(sig, args, kwargs)
  {
    inArgs, inKwargs := args, [];
    var nargs := |sig.names|;
    var i := 0;
    while i < nargs
      invariant 0 <= i <= nargs
      invariant RebindFrom(sig, kwargs, i, Binding(inArgs, inKwargs)) == Rebind(sig, args, kwargs)
    {
      var varname := sig.names[nargs - 1 - i];
      if varname in kwargs {
        inKwargs := inKwargs + [(varname, kwargs[varname])];
        i := i + 1;
        continue;
      }
      if nargs - |inKwargs| == sig.posOnly {
        break;
      }
      if |inArgs| > 0 {
        inKwargs := inKwargs + [(varname, inArgs[|inArgs| - 1])];
        inArgs := inArgs[..|inArgs| - 1];
      }
      i := i + 1;
    }
  }

  // ---------------------------------------------------------------------
  // Rendering (lines 80-84)
  // ---------------------------------------------------------------------

  /** `f"{func.__module__}.{func.__name__}"` */
  function Prefix(f: Func): string {
    f.moduleName + "." + f.name
  }

  /** `sep.join(parts)` */
  function Join(parts: seq<string>, sep: string): string
    decreases |parts|
  {
    if |parts| == 0 then ""
    else if |parts| == 1 then parts[0]
    else parts[0] + sep + Join(parts[1..], sep)
  }

  /** `"{}={}".format(k, v)` */
  function KwPiece(p: (string, string)): string {
    p.0 + "=" + p.1
  }

  function KwPieces(ps: Pairs): (r: seq<string>)
    ensures |r| == |ps|
    ensures forall k :: 0 <= k < |ps| ==> r[k] == KwPiece(ps[k])
  {
    seq(|ps|, k requires 0 <= k < |ps| => KwPiece(ps[k]))
  }

  /** The key layout `<prefix>:?:<args joined by :::>:&:<k=v joined by :::>`. */
  function Render(prefix: string, b: Binding): string {
    prefix + FunSep + Join(b.args, ParamSep) + TypeSep + Join(KwPieces(b.kwargs), ParamSep)
  }

  /** The key `key_from_function_call` returns for a call of `f`. */
  function CallKey(f: Func, args: seq<string>, kwargs: map<string, string>): string {
    Render(Prefix(f), Rebind(f.sig, args, kwargs))
  }

  /** `key_from_function_call`: rebinds the call, then renders it. It never
      raises, however many positional arguments it is given. */
  method KeyFromFunctionCall(f: Func, args: seq<string>, kwargs: map<string, string>)
    returns (key: string)
    requires WellFormed(f.sig)
    ensures key == CallKey(f, args, kwargs)
  {
    var inArgs, inKwargs := AllAsKwargs(f.sig, args, kwargs);
    var argstr := Join(inArgs, ParamSep);
    var kwargstr := Join(KwPieces(inKwargs), ParamSep);
    key := Prefix(f) + FunSep + argstr + TypeSep + kwargstr;
  }

  // ---------------------------------------------------------------------
  // What the rebinding promises
  // ---------------------------------------------------------------------

  function Reverse<T>(s: seq<T>): (r: seq<T>)
    ensures |r| == |s|
    decreases |s|
  {
    if s == [] then [] else [s[|s| - 1]] + Reverse(s[..|s| - 1])
  }

  lemma ReverseSnoc<T>(s: seq<T>, x: T)
    ensures Reverse(s + [x]) == [x] + Reverse(s)
  {
    assert (s + [x])[..|s|] == s;
  }

  /** The renders the walk moved out of the positional arguments, in the order
      it moved them: the values of the keyword part whose names were not passed
      as keywords. */
  function Popped(ps: Pairs, kwargs: map<string, string>): seq<string>
    decreases |ps|
  {
    if ps == [] then []
    else Popped(ps[..|ps| - 1], kwargs) + (if ps[|ps| - 1].0 in kwargs then [] else [ps[|ps| - 1].1])
  }

  lemma PoppedSnoc(ps: Pairs, p: (string, string), kwargs: map<string, string>)
    ensures Popped(ps + [p], kwargs) == Popped(ps, kwargs) + (if p.0 in kwargs then [] else [p.1])
  {
    assert (ps + [p])[..|ps|] == ps;
  }

  lemma StepConserves(sig: Signature, kwargs: map<string, string>, i: nat, b: Binding)
    requires i < |sig.names| && Step(sig, kwargs, i, b).Some?
    ensures var b' := Step(sig, kwargs, i, b).value;
            b'.args + Reverse(Popped(b'.kwargs, kwargs)) == b.args + Reverse(Popped(b.kwargs, kwargs))
  {
    var name := Visited(sig, i);
    var pb := Popped(b.kwargs, kwargs);
    if name in kwargs {
      PoppedSnoc(b.kwargs, (name, kwargs[name]), kwargs);
      assert pb + [] == pb;
    } else if |b.args| > 0 {
      var last := b.args[|b.args| - 1];
      var front := b.args[..|b.args| - 1];
      PoppedSnoc(b.kwargs, (name, last), kwargs);
      ReverseSnoc(pb, last);
      calc {
        front + Reverse(pb + [last]);
        front + ([last] + Reverse(pb));
        (front + [last]) + Reverse(pb);
        { assert front + [last] == b.args; }
        b.args + Reverse(pb);
      }
    }
  }

  lemma {:induction false} RebindFromConserves(sig: Signature, kwargs: map<string, string>, i: nat, b: Binding)
    ensures var r := RebindFrom(sig, kwargs, i, b);
            r.args + Reverse(Popped(r.kwargs, kwargs)) == b.args + Reverse(Popped(b.kwargs, kwargs))
    decreases |sig.names| - i
  {
    if i < |sig.names| && Step(sig, kwargs, i, b).Some? {
      StepConserves(sig, kwargs, i, b);
      RebindFromConserves(sig, kwargs, i + 1, Step(sig, kwargs, i, b).value);
    }
  }

  /** Every positional argument either stays in the positional part, which
      keeps a prefix of the arguments in their left-to-right order, or is bound
      to exactly one parameter name; the arguments moved are the last ones,
      taken from the right. */
  lemma RebindConserves(sig: Signature, args: seq<string>, kwargs: map<string, string>)
    ensures var r := Rebind(sig, args, kwargs);
            && r.args + Reverse(Popped(r.kwargs, kwargs)) == args
            && r.args == args[..|r.args|]
  {
    RebindFromConserves(sig, kwargs, 0, Binding(args, []));
  }

  /** Position of a declared name. */
  function IndexOf(names: seq<string>, n: string): (k: nat)
    requires n in names
    ensures k < |names| && names[k] == n
    ensures forall j :: 0 <= j < k ==> names[j] != n
  {
    if names[0] == n then 0 else 1 + IndexOf(names[1..], n)
  }

  lemma IndexOfDeclared(sig: Signature, j: nat)
    requires WellFormed(sig) && j < |sig.names|
    ensures IndexOf(sig.names, sig.names[j]) == j
  {
  }

  /** The keyword part names declared parameters only, each once, in reverse
      declaration order; a value whose name was passed as a keyword is that
      keyword's value. */
  ghost predicate KeywordPartShape(sig: Signature, kwargs: map<string, string>, ps: Pairs) {
    && (forall k :: 0 <= k < |ps| ==> ps[k].0 in sig.names)
    && (forall k, l :: 0 <= k < l < |ps| ==>
          IndexOf(sig.names, ps[k].0) > IndexOf(sig.names, ps[l].0))
    && (forall k :: 0 <= k < |ps| && ps[k].0 in kwargs ==> ps[k].1 == kwargs[ps[k].0])
  }

  /** The state of the walk before step `i`. */
  ghost predicate WalkInv(sig: Signature, kwargs: map<string, string>, i: nat, b: Binding)
    requires i <= |sig.names|
  {
    var n := |sig.names|;
    && |b.kwargs| <= i
    && KeywordPartShape(sig, kwargs, b.kwargs)
    && (forall k :: 0 <= k < |b.kwargs| ==> IndexOf(sig.names, b.kwargs[k].0) >= n - i)
    && (forall j :: n - i <= j < n && sig.names[j] in kwargs ==>
          (sig.names[j], kwargs[sig.names[j]]) in b.kwargs)
  }

  lemma ShapeAppend(sig: Signature, kwargs: map<string, string>, ps: Pairs, name: string, v: string)
    requires KeywordPartShape(sig, kwargs, ps) && name in sig.names
    requires forall k :: 0 <= k < |ps| ==> IndexOf(sig.names, ps[k].0) > IndexOf(sig.names, name)
    requires name in kwargs ==> v == kwargs[name]
    ensures KeywordPartShape(sig, kwargs, ps + [(name, v)])
  {
    var qs := ps + [(name, v)];
    assert forall k :: 0 <= k < |ps| ==> qs[k] == ps[k];
    assert qs[|ps|] == (name, v);
    forall k, l | 0 <= k < l < |qs|
      ensures IndexOf(sig.names, qs[k].0) > IndexOf(sig.names, qs[l].0)
    {
      if l == |ps| {
        assert qs[k] == ps[k];
      } else {
        assert qs[k] == ps[k] && qs[l] == ps[l];
      }
    }
  }

  lemma WalkInvAppend(sig: Signature, kwargs: map<string, string>, i: nat, b: Binding, v: string, args': seq<string>)
    requires WellFormed(sig) && i < |sig.names| && WalkInv(sig, kwargs, i, b)
    requires Visited(sig, i) in kwargs ==> v == kwargs[Visited(sig, i)]
    ensures WalkInv(sig, kwargs, i + 1, Binding(args', b.kwargs + [(Visited(sig, i), v)]))
  {
    var n := |sig.names|;
    var name := Visited(sig, i);
    var ps := b.kwargs + [(name, v)];
    IndexOfDeclared(sig, n - 1 - i);
    ShapeAppend(sig, kwargs, b.kwargs, name, v);
    assert forall k :: 0 <= k < |b.kwargs| ==> ps[k] == b.kwargs[k];
    assert ps[|b.kwargs|] == (name, v);
    assert forall k :: 0 <= k < |ps| ==> IndexOf(sig.names, ps[k].0) >= n - (i + 1);
    forall j | n - (i + 1) <= j < n && sig.names[j] in kwargs
      ensures (sig.names[j], kwargs[sig.names[j]]) in ps
    {
      if j == n - 1 - i {
        assert ps[|b.kwargs|] == (sig.names[j], kwargs[sig.names[j]]);
      } else {
        var pair := (sig.names[j], kwargs[sig.names[j]]);
        assert pair in b.kwargs;
        var k :| 0 <= k < |b.kwargs| && b.kwargs[k] == pair;
        assert ps[k] == pair;
      }
    }
  }

  lemma WalkInvSkip(sig: Signature, kwargs: map<string, string>, i: nat, b: Binding)
    requires WellFormed(sig) && i < |sig.names| && WalkInv(sig, kwargs, i, b)
    requires Visited(sig, i) !in kwargs
    ensures WalkInv(sig, kwargs, i + 1, b)
  {
  }

  lemma WalkInvDone(sig: Signature, kwargs: map<string, string>, i: nat, b: Binding)
    requires WellFormed(sig) && i <= |sig.names| && WalkInv(sig, kwargs, i, b)
    requires i == |sig.names| || |sig.names| - |b.kwargs| == sig.posOnly
    ensures KeywordPartShape(sig, kwargs, b.kwargs)
    ensures forall j :: sig.posOnly <= j < |sig.names| && sig.names[j] in kwargs ==>
              (sig.names[j], kwargs[sig.names[j]]) in b.kwargs
  {
  }

  lemma {:induction false} RebindFromShape(sig: Signature, kwargs: map<string, string>, i: nat, b: Binding)
    requires WellFormed(sig) && i <= |sig.names| && WalkInv(sig, kwargs, i, b)
    ensures var r := RebindFrom(sig, kwargs, i, b);
            && KeywordPartShape(sig, kwargs, r.kwargs)
            && forall j :: sig.posOnly <= j < |sig.names| && sig.names[j] in kwargs ==>
                 (sig.names[j], kwargs[sig.names[j]]) in r.kwargs
    decreases |sig.names| - i
  {
    if i == |sig.names| || Step(sig, kwargs, i, b).None? {
      WalkInvDone(sig, kwargs, i, b);
    } else {
      var name := Visited(sig, i);
      var b' := Step(sig, kwargs, i, b).value;
      if name in kwargs {
        WalkInvAppend(sig, kwargs, i, b, kwargs[name], b.args);
      } else if |b.args| == 0 {
        WalkInvSkip(sig, kwargs, i, b);
      } else {
        WalkInvAppend(sig, kwargs, i, b, b.args[|b.args| - 1], b'.args);
      }
      RebindFromShape(sig, kwargs, i + 1, b');
    }
  }

  /** Rebinding, for every call: the keyword part holds declared parameters
      only (undeclared keyword names are dropped), in reverse declaration
      order whatever the call-site order; a parameter that is not
      positional-only and was passed by keyword is always bound to that
      keyword's value, never to a positional argument. */
  lemma RebindShape(sig: Signature, args: seq<string>, kwargs: map<string, string>)
    requires WellFormed(sig)
    ensures var r := Rebind(sig, args, kwargs);
            && KeywordPartShape(sig, kwargs, r.kwargs)
            && forall j :: sig.posOnly <= j < |sig.names| && sig.names[j] in kwargs ==>
                 (sig.names[j], kwargs[sig.names[j]]) in r.kwargs
  {
    RebindFromShape(sig, kwargs, 0, Binding(args, []));
  }

  // ---------------------------------------------------------------------
  // Canonical keys
  // ---------------------------------------------------------------------

  /** A call that binds every declared parameter exactly once, the way Python
      binds it: the first `|args|` parameters positionally (at least the
      positional-only ones), every later one by keyword. */
  predicate ProperCall(sig: Signature, args: seq<string>, kwargs: map<string, string>) {
    && sig.posOnly <= |args| <= |sig.names|
    && (forall j :: 0 <= j < |args| ==> sig.names[j] !in kwargs)
    && (forall j :: |args| <= j < |sig.names| ==> sig.names[j] in kwargs)
  }

  /** The value a proper call binds to parameter `j`, whichever way it was passed. */
  function BoundValue(sig: Signature, args: seq<string>, kwargs: map<string, string>, j: nat): string
    requires ProperCall(sig, args, kwargs) && j < |sig.names|
  {
    if j < |args| then args[j] else kwargs[sig.names[j]]
  }

  /** `name=value` for the parameters from `lo` on, the last parameter first. */
  function BoundPairs(sig: Signature, args: seq<string>, kwargs: map<string, string>, lo: nat): (ps: Pairs)
    requires ProperCall(sig, args, kwargs)
    ensures |ps| == if lo < |sig.names| then |sig.names| - lo else 0
    decreases |sig.names| - lo
  {
    if lo >= |sig.names| then []
    else BoundPairs(sig, args, kwargs, lo + 1) + [(sig.names[lo], BoundValue(sig, args, kwargs, lo))]
  }

  function Min(a: int, b: int): int { if a <= b then a else b }

  lemma {:induction false} ProperRebindFrom(sig: Signature, args: seq<string>, kwargs: map<string, string>, i: nat)
    requires WellFormed(sig) && ProperCall(sig, args, kwargs) && i <= |sig.names| - sig.posOnly
    ensures var n := |sig.names|;
            RebindFrom(sig, kwargs, i, Binding(args[..Min(|args|, n - i)], BoundPairs(sig, args, kwargs, n - i)))
              == Binding(args[..sig.posOnly], BoundPairs(sig, args, kwargs, sig.posOnly))
    decreases |sig.names| - i
  {
    var n := |sig.names|;
    var b := Binding(args[..Min(|args|, n - i)], BoundPairs(sig, args, kwargs, n - i));
    if i == n - sig.posOnly {
      if i < n {
        assert Visited(sig, i) == sig.names[sig.posOnly - 1];
        assert Step(sig, kwargs, i, b).None?;
      }
    } else {
      var j := n - 1 - i;
      var b' := Binding(args[..Min(|args|, j)], BoundPairs(sig, args, kwargs, j));
      if j < |args| {
        assert args[..j + 1][..j] == args[..j];
      }
      assert Step(sig, kwargs, i, b) == Some(b');
      ProperRebindFrom(sig, args, kwargs, i + 1);
    }
  }

  /** For a call that binds every parameter, the positional part is exactly
      the positional-only arguments and the keyword part binds every other
      parameter to its value, the last parameter first. */
  lemma ProperCallRebind(sig: Signature, args: seq<string>, kwargs: map<string, string>)
    requires WellFormed(sig) && ProperCall(sig, args, kwargs)
    ensures Rebind(sig, args, kwargs) == Binding(args[..sig.posOnly], BoundPairs(sig, args, kwargs, sig.posOnly))
  {
    var n := |sig.names|;
    assert args[..Min(|args|, n)] == args;
    ProperRebindFrom(sig, args, kwargs, 0);
  }

  lemma {:induction false} BoundPairsAgree(sig: Signature, args1: seq<string>, kwargs1: map<string, string>,
                                           args2: seq<string>, kwargs2: map<string, string>, lo: nat)
    requires ProperCall(sig, args1, kwargs1) && ProperCall(sig, args2, kwargs2)
    requires forall j :: lo <= j < |sig.names| ==>
               BoundValue(sig, args1, kwargs1, j) == BoundValue(sig, args2, kwargs2, j)
    ensures BoundPairs(sig, args1, kwargs1, lo) == BoundPairs(sig, args2, kwargs2, lo)
    decreases |sig.names| - lo
  {
    if lo < |sig.names| {
      BoundPairsAgree(sig, args1, kwargs1, args2, kwargs2, lo + 1);
    }
  }

  /** Canonicalisation: two calls that bind every parameter to the same value
      produce the same key, whether each argument was passed positionally or
      by keyword. */
  lemma EquivalentCallsSameKey(f: Func, args1: seq<string>, kwargs1: map<string, string>,
                               args2: seq<string>, kwargs2: map<string, string>)
    requires WellFormed(f.sig) && ProperCall(f.sig, args1, kwargs1) && ProperCall(f.sig, args2, kwargs2)
    requires forall j :: 0 <= j < |f.sig.names| ==>
               BoundValue(f.sig, args1, kwargs1, j) == BoundValue(f.sig, args2, kwargs2, j)
    ensures CallKey(f, args1, kwargs1) == CallKey(f, args2, kwargs2)
  {
    ProperCallRebind(f.sig, args1, kwargs1);
    ProperCallRebind(f.sig, args2, kwargs2);
    BoundPairsAgree(f.sig, args1, kwargs1, args2, kwargs2, f.sig.posOnly);
    assert args1[..f.sig.posOnly] == args2[..f.sig.posOnly] by {
      forall j | 0 <= j < f.sig.posOnly
        ensures args1[j] == args2[j]
      {
        assert BoundValue(f.sig, args1, kwargs1, j) == BoundValue(f.sig, args2, kwargs2, j);
      }
    }
  }

  /** `def f(a, b, /, c, d, *, e, f)` from the test suite. */
  function TestF(): Func {
    Func("test_caching", "f", Signature(2, ["a", "b", "c", "d", "e", "f"]))
  }

  lemma TestCallBinds(args: seq<string>, kwargs: map<string, string>)
    requires ProperCall(TestF().sig, args, kwargs) && args[..2] == ["1", "2"]
    requires forall j :: 2 <= j < 6 ==> BoundValue(TestF().sig, args, kwargs, j) == ["1", "2", "3", "4", "5", "6"][j]
    ensures Rebind(TestF().sig, args, kwargs) == Binding(["1", "2"], [("f", "6"), ("e", "5"), ("d", "4"), ("c", "3")])
  {
    var sig := TestF().sig;
    ProperCallRebind(sig, args, kwargs);
    assert BoundPairs(sig, args, kwargs, 5) == [("f", "6")];
    assert BoundPairs(sig, args, kwargs, 4) == [("f", "6"), ("e", "5")];
    assert BoundPairs(sig, args, kwargs, 3) == [("f", "6"), ("e", "5"), ("d", "4")];
  }

  lemma TestCallsBind()
    ensures Rebind(TestF().sig, ["1", "2"], map["c" := "3", "d" := "4", "e" := "5", "f" := "6"])
              == Binding(["1", "2"], [("f", "6"), ("e", "5"), ("d", "4"), ("c", "3")])
    ensures Rebind(TestF().sig, ["1", "2", "3"], map["e" := "5", "f" := "6", "d" := "4"])
              == Binding(["1", "2"], [("f", "6"), ("e", "5"), ("d", "4"), ("c", "3")])
  {
    var args1, kwargs1 := ["1", "2"], map["c" := "3", "d" := "4", "e" := "5", "f" := "6"];
    var args2, kwargs2 := ["1", "2", "3"], map["e" := "5", "f" := "6", "d" := "4"];
    assert args1[..2] == ["1", "2"];
    assert args2[..2] == ["1", "2"];
    TestCallBinds(args1, kwargs1);
    TestCallBinds(args2, kwargs2);
  }

  lemma TestBindingRenders()
    ensures Render("test_caching.f", Binding(["1", "2"], [("f", "6"), ("e", "5"), ("d", "4"), ("c", "3")]))
              == "test_caching.f:?:1:::2:&:f=6:::e=5:::d=4:::c=3"
  {
    var pieces := KwPieces([("f", "6"), ("e", "5"), ("d", "4"), ("c", "3")]);
    assert pieces[0] == KwPiece(("f", "6")) == "f=6";
    assert pieces[1] == KwPiece(("e", "5")) == "e=5";
    assert pieces[2] == KwPiece(("d", "4")) == "d=4";
    assert pieces[3] == KwPiece(("c", "3")) == "c=3";
    assert pieces == ["f=6", "e=5", "d=4", "c=3"];
    assert Join(["1", "2"], ParamSep) == "1:::2";
    assert Join(pieces, ParamSep) == "f=6:::e=5:::d=4:::c=3";
  }

  /** The calls `f(1, 2, c=3, d=4, e=5, f=6)` and `f(1, 2, 3, e=5, f=6, d=4)` of
      the test suite both have the key `test_caching.f:?:1:::2:&:f=6:::e=5:::d=4:::c=3`. */
  lemma TestSuiteKeys()
    ensures CallKey(TestF(), ["1", "2"], map["c" := "3", "d" := "4", "e" := "5", "f" := "6"])
              == "test_caching.f:?:1:::2:&:f=6:::e=5:::d=4:::c=3"
    ensures CallKey(TestF(), ["1", "2", "3"], map["e" := "5", "f" := "6", "d" := "4"])
              == "test_caching.f:?:1:::2:&:f=6:::e=5:::d=4:::c=3"
  {
    TestCallsBind();
    TestBindingRenders();
  }

  /** `def m(self, a, /, b, *, c)` from the test suite, called through the
      instance: the code object still lists `self`, which the call does not pass. */
  function TestM(): Func {
    Func("test_caching", "m", Signature(2, ["self", "a", "b", "c"]))
  }

  lemma TestMethodRebinds()
    ensures Rebind(TestM().sig, ["1"], map["c" := "3", "b" := "2"]) == Binding(["1"], [("c", "3"), ("b", "2")])
  {
    var sig := TestM().sig;
    var kwargs := map["c" := "3", "b" := "2"];
    var empty: Pairs := [];
    assert Visited(sig, 0) == "c" && Visited(sig, 1) == "b" && Visited(sig, 2) == "a";
    assert empty + [("c", "3")] == [("c", "3")];
    var b1 := Binding(["1"], [("c", "3")]);
    var b2 := Binding(["1"], [("c", "3"), ("b", "2")]);
    assert Step(sig, kwargs, 0, Binding(["1"], empty)) == Some(b1);
    assert b1.kwargs + [("b", "2")] == b2.kwargs;
    assert Step(sig, kwargs, 1, b1) == Some(b2);
    assert "a" !in kwargs;
    assert Step(sig, kwargs, 2, b2) == None;
  }

  lemma TestMethodRenders()
    ensures Render("test_caching.m", Binding(["1"], [("c", "3"), ("b", "2")])) == "test_caching.m:?:1:&:c=3:::b=2"
  {
    var pieces := KwPieces([("c", "3"), ("b", "2")]);
    assert pieces[0] == KwPiece(("c", "3")) == "c=3";
    assert pieces[1] == KwPiece(("b", "2")) == "b=2";
    assert pieces == ["c=3", "b=2"];
    assert Join(pieces, ParamSep) == "c=3:::b=2";
  }

  /** The call `m(1, c=3, b=2)` of the test suite has the key
      `test_caching.m:?:1:&:c=3:::b=2`: the walk binds `c` and `b` from the
      keywords and stops at `a`, leaving `1` positional. */
  lemma TestMethodKey()
    ensures CallKey(TestM(), ["1"], map["c" := "3", "b" := "2"]) == "test_caching.m:?:1:&:c=3:::b=2"
  {
    TestMethodRebinds();
    TestMethodRenders();
  }

  // ---------------------------------------------------------------------
  // Decoding (`function_call_from_key`)
  // ---------------------------------------------------------------------

  /** `sep` occurs in `s` at position `j`. */
  predicate At(s: string, j: nat, sep: string) {
    j + |sep| <= |s| && s[j..j + |sep|] == sep
  }

  /** `s.find(sep, i)`: the leftmost occurrence of `sep` at or after `i`. */
  function FindFrom(s: string, sep: string, i: nat): (r: Option<nat>)
    requires |sep| > 0
    ensures r.Some? ==> i <= r.value && At(s, r.value, sep)
    ensures forall j :: i <= j && (r.None? || j < r.value) ==> !At(s, j, sep)
    decreases |s| - i
  {
    if i + |sep| > |s| then None
    else if At(s, i, sep) then Some(i)
    else FindFrom(s, sep, i + 1)
  }

  /** `s.split(sep)`: the pieces between the non-overlapping occurrences of
      `sep`, found from the left. */
  function Split(s: string, sep: string): (parts: seq<string>)
    requires |sep| > 0
    ensures |parts| >= 1
    decreases |s|
  {
    match FindFrom(s, sep, 0)
    case None => [s]
    case Some(k) => [s[..k]] + Split(s[k + |sep|..], sep)
  }

  /** `filter(bool, parts)`: drops the empty pieces. */
  function NonEmpty(parts: seq<string>): (r: seq<string>)
    ensures forall k :: 0 <= k < |r| ==> r[k] != ""
  {
    if parts == [] then []
    else (if parts[0] == "" then [] else [parts[0]]) + NonEmpty(parts[1..])
  }

  /** `piece.split('=', 1)` as a dictionary item: a piece without `=` gives a
      one-element list, which `dict` refuses. */
  function SplitPiece(piece: string): (r: Option<(string, string)>)
    ensures r.Some? ==> '=' !in r.value.0 && piece == r.value.0 + "=" + r.value.1
    ensures r.None? <==> '=' !in piece
    decreases |piece|
  {
    if piece == [] then None
    else if piece[0] == '=' then Some(([], piece[1..]))
    else match SplitPiece(piece[1..])
      case None => None
      case Some(p) => Some(([piece[0]] + p.0, p.1))
  }

  function SplitPieces(pieces: seq<string>): (r: Option<Pairs>)
    ensures r.Some? ==> |r.value| == |pieces|
  {
    if pieces == [] then Some([])
    else match (SplitPiece(pieces[0]), SplitPieces(pieces[1..]))
      case (Some(p), Some(ps)) => Some([p] + ps)
      case _ => None
  }

  /** `dict(pairs)`: a later pair overwrites an earlier one with the same name. */
  function PairsToMap(ps: Pairs): map<string, string>
    decreases |ps|
  {
    if ps == [] then map[]
    else PairsToMap(ps[..|ps| - 1])[ps[|ps| - 1].0 := ps[|ps| - 1].1]
  }

  /** What decoding returns: the qualified name, the positional renders, the
      keyword renders. */
  datatype Decoded = Decoded(prefix: string, args: seq<string>, kwargs: map<string, string>)

  /** `function_call_from_key`. Each of the two unpackings raises `ValueError`
      unless its separator occurs exactly once, and so does `dict` for a
      keyword piece without `=`. */
  function FunctionCallFromKey(key: string): Result<Decoded, Error> {
    var outer := Split(key, FunSep);
    if |outer| != 2 then Err(ValueError)
    else
      var inner := Split(outer[1], TypeSep);
      if |inner| != 2 then Err(ValueError)
      else
        var args := NonEmpty(Split(inner[0], ParamSep));
        match SplitPieces(NonEmpty(Split(inner[1], ParamSep)))
        case None => Err(ValueError)
        case Some(ps) => Ok(Decoded(outer[0], args, PairsToMap(ps)))
  }

  // ---------------------------------------------------------------------
  // Decoding inverts encoding
  // ---------------------------------------------------------------------

  predicate ColonFree(s: string) {
    ':' !in s
  }

  /** A positional render that survives the key: not empty (empty pieces are
      filtered out), no `:` (so it cannot hold or touch a separator), and not a
      lone `?` or `&` (which two neighbouring separators would turn into a
      `:?:` or `:&:`). */
  predicate ValidRender(r: string) {
    r != "" && ColonFree(r) && r != "?" && r != "&"
  }

  /** A keyword item that survives the key: no `:` anywhere and no `=` in the name. */
  predicate ValidKwPair(p: (string, string)) {
    ColonFree(p.0) && '=' !in p.0 && ColonFree(p.1)
  }

  predicate ValidBinding(b: Binding) {
    && (forall k :: 0 <= k < |b.args| ==> ValidRender(b.args[k]))
    && (forall k :: 0 <= k < |b.kwargs| ==> ValidKwPair(b.kwargs[k]))
  }

  /** The three separators all have the shape `:c:`. */
  function Triple(c: char): string {
    [':', c, ':']
  }

  lemma AtTriple(s: string, j: nat, c: char)
    ensures At(s, j, Triple(c)) <==> (j + 3 <= |s| && s[j] == ':' && s[j + 1] == c && s[j + 2] == ':')
  {
    if j + 3 <= |s| {
      assert s[j..j + 3] == [s[j], s[j + 1], s[j + 2]];
    }
  }

  lemma NoAtInColonFree(s: string, sep: string)
    requires ColonFree(s) && |sep| > 0 && sep[0] == ':'
    ensures forall j :: !At(s, j, sep)
  {
    forall j: nat | j + |sep| <= |s|
      ensures !At(s, j, sep)
    {
      assert s[j..j + |sep|][0] == s[j];
    }
  }

  lemma SplitWithout(s: string, sep: string)
    requires |sep| > 0 && forall j :: !At(s, j, sep)
    ensures Split(s, sep) == [s]
  {
  }

  lemma FindAfterColonFree(p: string, sep: string, rest: string)
    requires ColonFree(p) && |sep| > 0 && sep[0] == ':'
    ensures FindFrom(p + sep + rest, sep, 0) == Some(|p|)
    ensures Split(p + sep + rest, sep) == [p] + Split(rest, sep)
  {
    var s := p + sep + rest;
    assert s[|p|..|p| + |sep|] == sep;
    assert At(s, |p|, sep);
    forall j | 0 <= j < |p|
      ensures !At(s, j, sep)
    {
      assert s[j] == p[j];
      if j + |sep| <= |s| {
        assert s[j..j + |sep|][0] == s[j];
      }
    }
    assert s[..|p|] == p;
    assert s[|p| + |sep|..] == rest;
  }

  lemma {:induction false} SplitJoin(parts: seq<string>, sep: string)
    requires parts != [] && |sep| > 0 && sep[0] == ':'
    requires forall k :: 0 <= k < |parts| ==> ColonFree(parts[k])
    ensures Split(Join(parts, sep), sep) == parts
    decreases |parts|
  {
    if |parts| == 1 {
      NoAtInColonFree(parts[0], sep);
      SplitWithout(parts[0], sep);
    } else {
      FindAfterColonFree(parts[0], sep, Join(parts[1..], sep));
      SplitJoin(parts[1..], sep);
    }
  }

  /** What `Join(parts, ":::")` looks like around a middle character `c`. */
  ghost predicate JoinFacts(s: string, c: char) {
    && (forall j :: !At(s, j, Triple(c)))
    && (s != [] ==> s[0] != ':' && s[|s| - 1] != ':')
    && (|s| >= 2 ==> !(s[0] == c && s[1] == ':') && !(s[|s| - 2] == ':' && s[|s| - 1] == c))
    && (|s| == 1 ==> s[0] != c)
  }

  lemma {:induction false} JoinNoTriple(parts: seq<string>, c: char)
    requires c != ':'
    requires forall k :: 0 <= k < |parts| ==> parts[k] != "" && ColonFree(parts[k]) && parts[k] != [c]
    ensures JoinFacts(Join(parts, ParamSep), c)
    ensures Join(parts, ParamSep) == [] <==> parts == []
    decreases |parts|
  {
    var s := Join(parts, ParamSep);
    if |parts| == 1 {
      NoAtInColonFree(s, Triple(c));
    } else if |parts| > 1 {
      var p := parts[0];
      var t := Join(parts[1..], ParamSep);
      JoinNoTriple(parts[1..], c);
      assert s == p + ParamSep + t;
      assert |t| > 0;
      forall j: nat
        ensures !At(s, j, Triple(c))
      {
        AtTriple(s, j, c);
        if j + 3 <= |s| {
          if j < |p| {
            assert s[j] == p[j];
          } else if j == |p| || j == |p| + 1 {
            assert s[j + 1] == ':';
          } else if j == |p| + 2 {
            assert s[j + 1] == t[0] && s[j + 2] == t[1];
          } else {
            AtTriple(t, j - |p| - 3, c);
            assert s[j] == t[j - |p| - 3] && s[j + 1] == t[j - |p| - 2] && s[j + 2] == t[j - |p| - 1];
          }
        }
      }
      assert s[0] == p[0];
      assert |p| >= 2 ==> s[1] == p[1];
      assert s[|s| - 1] == t[|t| - 1];
      assert |t| >= 2 ==> s[|s| - 2] == t[|t| - 2];
      assert |t| == 1 ==> s[|s| - 2] == ':';
    }
  }

  /** In `args + ":&:" + kwargs` the separator `:?:` does not occur. */
  lemma NoFunSepInRest(a: string, k: string)
    requires JoinFacts(a, '?') && JoinFacts(k, '?')
    ensures forall j :: !At(a + TypeSep + k, j, FunSep)
  {
    var s := a + TypeSep + k;
    assert FunSep == Triple('?');
    forall j: nat
      ensures !At(s, j, Triple('?'))
    {
      AtTriple(s, j, '?');
      if j + 3 <= |s| {
        if j + 3 <= |a| {
          AtTriple(a, j, '?');
          assert s[j] == a[j] && s[j + 1] == a[j + 1] && s[j + 2] == a[j + 2];
        } else if j + 2 == |a| {
          assert s[j] == a[j] && s[j + 1] == a[j + 1];
        } else if j + 1 == |a| {
          assert s[j] == a[j];
        } else if j == |a| || j == |a| + 1 {
          assert s[|a| + 1] == '&';
        } else if j == |a| + 2 {
          assert s[j + 1] == k[0] && s[j + 2] == k[1];
        } else {
          AtTriple(k, j - |a| - 3, '?');
          assert s[j] == k[j - |a| - 3] && s[j + 1] == k[j - |a| - 2] && s[j + 2] == k[j - |a| - 1];
        }
      }
    }
  }

  /** In `args + ":&:" + kwargs` the first `:&:` is the one after `args`. */
  lemma TypeSepSplitsRest(a: string, k: string)
    requires JoinFacts(a, '&') && JoinFacts(k, '&')
    ensures Split(a + TypeSep + k, TypeSep) == [a, k]
  {
    var s := a + TypeSep + k;
    assert TypeSep == Triple('&');
    assert s[|a|..|a| + 3] == TypeSep;
    assert At(s, |a|, TypeSep);
    forall j | 0 <= j < |a|
      ensures !At(s, j, Triple('&'))
    {
      AtTriple(s, j, '&');
      if j + 3 <= |a| {
        AtTriple(a, j, '&');
        assert s[j] == a[j] && s[j + 1] == a[j + 1] && s[j + 2] == a[j + 2];
      } else if j + 2 == |a| {
        assert s[j] == a[j] && s[j + 1] == a[j + 1];
      } else {
        assert s[j] == a[j];
      }
    }
    assert FindFrom(s, TypeSep, 0) == Some(|a|);
    assert s[..|a|] == a;
    assert s[|a| + 3..] == k;
    SplitWithout(k, TypeSep);
  }

  lemma NonEmptyKeeps(parts: seq<string>)
    requires forall k :: 0 <= k < |parts| ==> parts[k] != ""
    ensures NonEmpty(parts) == parts
  {
  }

  lemma {:induction false} SplitKwPiece(p: (string, string))
    requires '=' !in p.0
    ensures SplitPiece(KwPiece(p)) == Some(p)
    decreases |p.0|
  {
    var piece := KwPiece(p);
    if p.0 == [] {
      assert piece[0] == '=' && piece[1..] == p.1;
    } else {
      var q := (p.0[1..], p.1);
      SplitKwPiece(q);
      assert piece[0] == p.0[0] && piece[0] != '=';
      assert piece[1..] == KwPiece(q);
      assert [p.0[0]] + p.0[1..] == p.0;
    }
  }

  lemma {:induction false} SplitKwPieces(ps: Pairs)
    requires forall k :: 0 <= k < |ps| ==> '=' !in ps[k].0
    ensures SplitPieces(KwPieces(ps)) == Some(ps)
    decreases |ps|
  {
    if ps != [] {
      var pieces := KwPieces(ps);
      SplitKwPiece(ps[0]);
      SplitKwPieces(ps[1..]);
      assert pieces[0] == KwPiece(ps[0]);
      assert pieces[1..] == KwPieces(ps[1..]);
      assert [ps[0]] + ps[1..] == ps;
    }
  }

  /** Splitting `Join(parts, ":::")` and dropping empty pieces gives the parts back. */
  lemma SplitJoinNonEmpty(parts: seq<string>)
    requires forall k :: 0 <= k < |parts| ==> parts[k] != "" && ColonFree(parts[k])
    ensures NonEmpty(Split(Join(parts, ParamSep), ParamSep)) == parts
  {
    if parts == [] {
      assert Split("", ParamSep) == [""];
    } else {
      SplitJoin(parts, ParamSep);
      NonEmptyKeeps(parts);
    }
  }

  /** The separators cut a rendered key into its three parts. */
  lemma SplitKey(prefix: string, a: string, k: string)
    requires ColonFree(prefix)
    requires JoinFacts(a, '?') && JoinFacts(k, '?') && JoinFacts(a, '&') && JoinFacts(k, '&')
    ensures Split(prefix + FunSep + (a + TypeSep + k), FunSep) == [prefix, a + TypeSep + k]
    ensures Split(a + TypeSep + k, TypeSep) == [a, k]
  {
    var rest := a + TypeSep + k;
    FindAfterColonFree(prefix, FunSep, rest);
    NoFunSepInRest(a, k);
    SplitWithout(rest, FunSep);
    TypeSepSplitsRest(a, k);
  }

  /** The renders of keyword items are valid pieces of a key. */
  lemma KwPiecesValid(ps: Pairs)
    requires forall k :: 0 <= k < |ps| ==> ValidKwPair(ps[k])
    ensures forall i :: 0 <= i < |KwPieces(ps)| ==> ValidRender(KwPieces(ps)[i])
  {
    var pieces := KwPieces(ps);
    forall i | 0 <= i < |pieces|
      ensures ValidRender(pieces[i])
    {
      assert pieces[i] == KwPiece(ps[i]);
      assert '=' in pieces[i];
    }
  }

  /** Decoding a rendered key gives back its prefix, the renders of the
      positional part and the keyword part as a dictionary, provided no render
      is empty or could form a separator and no keyword name holds `=`. */
  lemma DecodeRender(prefix: string, b: Binding)
    requires ColonFree(prefix) && ValidBinding(b)
    ensures FunctionCallFromKey(Render(prefix, b)) == Ok(Decoded(prefix, b.args, PairsToMap(b.kwargs)))
  {
    var pieces := KwPieces(b.kwargs);
    var a := Join(b.args, ParamSep);
    var k := Join(pieces, ParamSep);
    KwPiecesValid(b.kwargs);
    JoinNoTriple(b.args, '?');
    JoinNoTriple(b.args, '&');
    JoinNoTriple(pieces, '?');
    JoinNoTriple(pieces, '&');
    assert Render(prefix, b) == prefix + FunSep + (a + TypeSep + k);
    SplitKey(prefix, a, k);
    SplitJoinNonEmpty(b.args);
    SplitJoinNonEmpty(pieces);
    SplitKwPieces(b.kwargs);
  }

  /** The keyword part of a proper call, read back as a dictionary, maps every
      parameter from `lo` on to the value the call binds to it. */
  lemma {:induction false} BoundPairsMap(sig: Signature, args: seq<string>, kwargs: map<string, string>, lo: nat)
    requires WellFormed(sig) && ProperCall(sig, args, kwargs) && lo <= |sig.names|
    ensures forall x :: x in PairsToMap(BoundPairs(sig, args, kwargs, lo)) <==> x in sig.names[lo..]
    ensures forall j :: lo <= j < |sig.names| ==>
              PairsToMap(BoundPairs(sig, args, kwargs, lo))[sig.names[j]] == BoundValue(sig, args, kwargs, j)
    decreases |sig.names| - lo
  {
    var n := |sig.names|;
    if lo < n {
      BoundPairsMap(sig, args, kwargs, lo + 1);
      BoundPairsMapStep(sig, args, kwargs, lo);
    }
  }

  lemma BoundPairsMapStep(sig: Signature, args: seq<string>, kwargs: map<string, string>, lo: nat)
    requires WellFormed(sig) && ProperCall(sig, args, kwargs) && lo < |sig.names|
    ensures PairsToMap(BoundPairs(sig, args, kwargs, lo))
            == PairsToMap(BoundPairs(sig, args, kwargs, lo + 1))[sig.names[lo] := BoundValue(sig, args, kwargs, lo)]
    ensures sig.names[lo..] == [sig.names[lo]] + sig.names[lo + 1..]
  {
    var ps := BoundPairs(sig, args, kwargs, lo);
    assert ps[..|ps| - 1] == BoundPairs(sig, args, kwargs, lo + 1);
  }

  lemma {:induction false} BoundPairsValid(sig: Signature, args: seq<string>, kwargs: map<string, string>, lo: nat)
    requires ProperCall(sig, args, kwargs)
    requires forall j :: 0 <= j < |sig.names| ==> ColonFree(sig.names[j]) && '=' !in sig.names[j]
    requires forall j :: 0 <= j < |args| ==> ColonFree(args[j])
    requires forall x :: x in kwargs ==> ColonFree(kwargs[x])
    ensures forall k :: 0 <= k < |BoundPairs(sig, args, kwargs, lo)| ==> ValidKwPair(BoundPairs(sig, args, kwargs, lo)[k])
    decreases |sig.names| - lo
  {
    if lo < |sig.names| {
      BoundPairsValid(sig, args, kwargs, lo + 1);
    }
  }

  /** A call whose renders cannot be mistaken for separators: no `:` in the
      qualified name, the parameter names or the renders, no `=` in a
      parameter name, and no positional render empty, `?` or `&`. */
  predicate KeySafeCall(f: Func, args: seq<string>, kwargs: map<string, string>) {
    && ColonFree(Prefix(f))
    && (forall j :: 0 <= j < |f.sig.names| ==> ColonFree(f.sig.names[j]) && '=' !in f.sig.names[j])
    && (forall j :: 0 <= j < |args| ==> ValidRender(args[j]))
    && (forall x :: x in kwargs ==> ColonFree(kwargs[x]))
  }

  /** `function_call_from_key(key_from_function_call(f, *args, **kwargs))`:
      for a proper call with safe renders, decoding the key gives back the
      qualified name, the positional-only arguments, and a dictionary binding
      every other parameter to its value. */
  lemma CallKeyRoundTrip(f: Func, args: seq<string>, kwargs: map<string, string>)
    requires WellFormed(f.sig) && ProperCall(f.sig, args, kwargs) && KeySafeCall(f, args, kwargs)
    ensures FunctionCallFromKey(CallKey(f, args, kwargs)).Ok?
    ensures FunctionCallFromKey(CallKey(f, args, kwargs)).value.prefix == Prefix(f)
    ensures FunctionCallFromKey(CallKey(f, args, kwargs)).value.args == args[..f.sig.posOnly]
    ensures forall x :: x in FunctionCallFromKey(CallKey(f, args, kwargs)).value.kwargs
              <==> x in f.sig.names[f.sig.posOnly..]
    ensures forall j :: f.sig.posOnly <= j < |f.sig.names| ==>
              FunctionCallFromKey(CallKey(f, args, kwargs)).value.kwargs[f.sig.names[j]]
              == BoundValue(f.sig, args, kwargs, j)
  {
    var sig := f.sig;
    var b := Binding(args[..sig.posOnly], BoundPairs(sig, args, kwargs, sig.posOnly));
    ProperCallRebind(sig, args, kwargs);
    BoundPairsValid(sig, args, kwargs, sig.posOnly);
    BoundPairsMap(sig, args, kwargs, sig.posOnly);
    assert ValidBinding(b);
    DecodeRender(Prefix(f), b);
  }

  lemma TestPairsMapF()
    ensures PairsToMap([("f", "6"), ("e", "5"), ("d", "4"), ("c", "3")]) == map["f" := "6", "e" := "5", "d" := "4", "c" := "3"]
  {
    var p1: Pairs := [("f", "6")];
    var p2 := p1 + [("e", "5")];
    var p3 := p2 + [("d", "4")];
    var p4 := p3 + [("c", "3")];
    assert p1[..0] == [] && p2[..1] == p1 && p3[..2] == p2 && p4[..3] == p3;
    assert PairsToMap(p1) == map["f" := "6"];
    assert PairsToMap(p2) == map["f" := "6", "e" := "5"];
    assert PairsToMap(p3) == map["f" := "6", "e" := "5", "d" := "4"];
    assert p4 == [("f", "6"), ("e", "5"), ("d", "4"), ("c", "3")];
  }

  lemma TestPairsMapM()
    ensures PairsToMap([("c", "3"), ("b", "2")]) == map["c" := "3", "b" := "2"]
  {
    var p1: Pairs := [("c", "3")];
    var p2 := p1 + [("b", "2")];
    assert p1[..0] == [] && p2[..1] == p1;
    assert PairsToMap(p1) == map["c" := "3"];
    assert p2 == [("c", "3"), ("b", "2")];
  }

  /** The test suite's first decoding: `test_caching.f:?:1:::2:&:f=6:::e=5:::d=4:::c=3`
      gives `('1', '2')` and `{'f': '6', 'e': '5', 'd': '4', 'c': '3'}`. */
  lemma TestFunctionKeyDecodes()
    ensures FunctionCallFromKey("test_caching.f:?:1:::2:&:f=6:::e=5:::d=4:::c=3")
            == Ok(Decoded("test_caching.f", ["1", "2"], map["f" := "6", "e" := "5", "d" := "4", "c" := "3"]))
  {
    var bf := Binding(["1", "2"], [("f", "6"), ("e", "5"), ("d", "4"), ("c", "3")]);
    TestBindingRenders();
    assert ValidBinding(bf);
    DecodeRender("test_caching.f", bf);
    TestPairsMapF();
  }

  /** The test suite's second decoding: `test_caching.m:?:1:&:c=3:::b=2` gives
      `('1',)` and `{'c': '3', 'b': '2'}`. */
  lemma TestMethodKeyDecodes()
    ensures FunctionCallFromKey("test_caching.m:?:1:&:c=3:::b=2")
            == Ok(Decoded("test_caching.m", ["1"], map["c" := "3", "b" := "2"]))
  {
    var bm := Binding(["1"], [("c", "3"), ("b", "2")]);
    TestMethodRenders();
    assert ValidBinding(bm);
    DecodeRender("test_caching.m", bm);
    TestPairsMapM();
  }

  /** Why renders must not hold `:`: the positional renders `a:` and `b` come
      back as `a` and `:b`. */
  lemma ColonInRenderCorruptsKey()
    ensures FunctionCallFromKey(Render("m.f", Binding(["a:", "b"], []))) == Ok(Decoded("m.f", ["a", ":b"], map[]))
  {
    var a := "a::::b";
    assert Render("m.f", Binding(["a:", "b"], [])) == "m.f" + FunSep + (a + TypeSep + "");
    CorruptKeySplits(a);
    CorruptArgsSplit(a);
    assert NonEmpty(["a", ":b"]) == ["a", ":b"];
    assert Split("", ParamSep) == [""];
    assert NonEmpty([""]) == [];
  }

  lemma CorruptKeySplits(a: string)
    requires a == "a::::b"
    ensures Split("m.f" + FunSep + (a + TypeSep + ""), FunSep) == ["m.f", a + TypeSep + ""]
    ensures Split(a + TypeSep + "", TypeSep) == [a, ""]
  {
    var rest := a + TypeSep + "";
    FindAfterColonFree("m.f", FunSep, rest);
    forall j: nat
      ensures !At(rest, j, FunSep)
    {
      AtTriple(rest, j, '?');
      assert '?' !in rest;
    }
    SplitWithout(rest, FunSep);
    forall j: nat | j < |a|
      ensures !At(rest, j, TypeSep)
    {
      AtTriple(rest, j, '&');
      assert j + 1 < |a| ==> rest[j + 1] == a[j + 1];
    }
    assert rest[|a|..|a| + 3] == TypeSep;
    assert At(rest, |a|, TypeSep);
    assert FindFrom(rest, TypeSep, 0) == Some(|a|);
    assert rest[..|a|] == a && rest[|a| + 3..] == "";
  }

  lemma CorruptArgsSplit(a: string)
    requires a == "a::::b"
    ensures Split(a, ParamSep) == ["a", ":b"]
  {
    assert a[1..4] == ParamSep;
    assert a[0..3][0] == 'a';
    assert At(a, 1, ParamSep) && !At(a, 0, ParamSep);
    assert FindFrom(a, ParamSep, 0) == Some(1);
    assert a[..1] == "a" && a[4..] == ":b";
  }

  // ---------------------------------------------------------------------
  // Calls the encoder cannot key
  // ---------------------------------------------------------------------

  lemma {:induction false} RebindFromGrowth(sig: Signature, kwargs: map<string, string>, i: nat, b: Binding)
    requires i <= |sig.names|
    ensures |RebindFrom(sig, kwargs, i, b).kwargs| <= |b.kwargs| + (|sig.names| - i)
    decreases |sig.names| - i
  {
    if i < |sig.names| && Step(sig, kwargs, i, b).Some? {
      RebindFromGrowth(sig, kwargs, i + 1, Step(sig, kwargs, i, b).value);
    }
  }

  lemma {:induction false} PoppedShorter(ps: Pairs, kwargs: map<string, string>)
    ensures |Popped(ps, kwargs)| <= |ps|
    decreases |ps|
  {
    if ps != [] {
      PoppedShorter(ps[..|ps| - 1], kwargs);
    }
  }

  /** The walk binds at most one argument per parameter, so positional
      arguments beyond the parameter count stay in the positional part of the
      key: the encoder keys such a call instead of refusing it. */
  lemma SurplusStaysPositional(sig: Signature, args: seq<string>, kwargs: map<string, string>)
    ensures |args| - |sig.names| <= |Rebind(sig, args, kwargs).args|
  {
    var r := Rebind(sig, args, kwargs);
    RebindConserves(sig, args, kwargs);
    RebindFromGrowth(sig, kwargs, 0, Binding(args, []));
    PoppedShorter(r.kwargs, kwargs);
  }

  /** `def f(a)` called as `f(1, 2)`: Python refuses the call, but the encoder
      still produces the key `m.f:?:1:&:a=2`. */
  lemma SurplusCallGetsKey()
    ensures CallKey(Func("m", "f", Signature(0, ["a"])), ["1", "2"], map[]) == "m.f:?:1:&:a=2"
  {
    var sig := Signature(0, ["a"]);
    var args: seq<string> := ["1", "2"];
    assert Visited(sig, 0) == "a";
    var none: map<string, string> := map[];
    var empty: Pairs := [];
    assert args[..1] == ["1"] && args[1] == "2";
    assert "a" !in none && |sig.names| - |empty| != sig.posOnly;
    assert empty + [("a", "2")] == [("a", "2")];
    assert Step(sig, none, 0, Binding(args, empty)) == Some(Binding(["1"], [("a", "2")]));
    assert Rebind(sig, args, none) == Binding(["1"], [("a", "2")]);
    assert KwPiece(("a", "2")) == "a=2";
    assert KwPieces([("a", "2")]) == ["a=2"];
  }

  // ---------------------------------------------------------------------
  // Parameter defaults
  // ---------------------------------------------------------------------

  /** `def f(a=0, b=0)` called as `f(1)` and as `f(b=1)`: the walk never
      looks at defaults, so it moves the lone positional `1` onto the last
      parameter `b`, and both calls get the key `m.f:?::&:b=1`. */
  lemma DefaultedCallsCollide()
    ensures CallKey(Func("m", "f", Signature(0, ["a", "b"])), ["1"], map[]) == "m.f:?::&:b=1"
    ensures CallKey(Func("m", "f", Signature(0, ["a", "b"])), [], map["b" := "1"]) == "m.f:?::&:b=1"
  {
    var sig := Signature(0, ["a", "b"]);
    assert Visited(sig, 0) == "b" && Visited(sig, 1) == "a";
    var none: map<string, string> := map[];
    var byName: map<string, string> := map["b" := "1"];
    var one: seq<string> := ["1"];
    var empty: Pairs := [];
    var bound := Binding([], [("b", "1")]);
    assert one[..0] == [] && one[0] == "1";
    assert empty + [("b", "1")] == [("b", "1")];
    assert Step(sig, none, 0, Binding(one, empty)) == Some(bound);
    assert Step(sig, none, 1, bound) == Some(bound);
    assert Rebind(sig, one, none) == bound;
    assert Step(sig, byName, 0, Binding([], empty)) == Some(bound);
    assert "a" !in byName;
    assert Step(sig, byName, 1, bound) == Some(bound);
    assert Rebind(sig, [], byName) == bound;
    assert KwPiece(("b", "1")) == "b=1";
    assert KwPieces([("b", "1")]) == ["b=1"];
  }

  /** The defaults of `f`, by parameter name (`func.__defaults__` and
      `func.__kwdefaults__` as renders). */
  type Defaults = map<string, string>

  /** Positional-only parameters left out of the call take their defaults
      positionally, in order, as long as each has one. */
  function FillArgs(sig: Signature, defaults: Defaults, args: seq<string>): (r: seq<string>)
    ensures args <= r
    ensures |r| <= |args| || |r| <= sig.posOnly
    decreases sig.posOnly - |args|
  {
    if |args| < sig.posOnly && |args| < |sig.names| && sig.names[|args|] in defaults
    then FillArgs(sig, defaults, args + [defaults[sig.names[|args|]]])
    else args
  }

  /** The parameters from position `k` on. */
  function Later(sig: Signature, k: nat): seq<string> {
    if k <= |sig.names| then sig.names[k..] else []
  }

  /** Every parameter after the positional arguments that the call does not
      pass by keyword takes its default by keyword. */
  function FillKwargs(sig: Signature, defaults: Defaults, args: seq<string>, kwargs: map<string, string>)
    : (r: map<string, string>)
    ensures forall x :: x in kwargs ==> x in r && r[x] == kwargs[x]
    ensures forall x :: x in r && x !in kwargs ==> x in defaults && r[x] == defaults[x] && x in Later(sig, |args|)
    ensures forall x :: x in defaults && x in Later(sig, |args|) ==> x in r
  {
    map x | x in kwargs.Keys + defaults.Keys && (x in kwargs || x in Later(sig, |args|)) ::
      if x in kwargs then kwargs[x] else defaults[x]
  }

  /** The key the encoder should give a call: Python's binding with the
      defaults applied (`inspect.signature(func).bind(*args, **kwargs)`
      followed by `apply_defaults()`), refused with `TypeError` where Python
      refuses the call, and keyed as a call that passes every parameter. */
  function BoundKey(f: Func, defaults: Defaults, args: seq<string>, kwargs: map<string, string>)
    : Result<string, Error>
  {
    var a := FillArgs(f.sig, defaults, args);
    var kw := FillKwargs(f.sig, defaults, a, kwargs);
    if ProperCall(f.sig, a, kw) then Ok(CallKey(f, a, kw)) else Err(TypeError)
  }

  /** On a call that already passes every parameter the defaults change
      nothing, so the corrected key is the key `key_from_function_call` gives. */
  lemma ProperCallKeepsKey(f: Func, defaults: Defaults, args: seq<string>, kwargs: map<string, string>)
    requires WellFormed(f.sig) && ProperCall(f.sig, args, kwargs)
    ensures BoundKey(f, defaults, args, kwargs) == Ok(CallKey(f, args, kwargs))
  {
    var sig := f.sig;
    assert FillArgs(sig, defaults, args) == args;
    assert FillKwargs(sig, defaults, args, kwargs) == kwargs;
  }

  /** A call with more positional arguments than parameters is refused. */
  lemma SurplusCallRefused(f: Func, defaults: Defaults, args: seq<string>, kwargs: map<string, string>)
    requires WellFormed(f.sig) && |args| > |f.sig.names|
    ensures BoundKey(f, defaults, args, kwargs) == Err(TypeError)
  {
    assert FillArgs(f.sig, defaults, args) == args;
  }

  /** For calls with safe renders the key determines the binding: two calls
      that bind every parameter share a key exactly when they bind every
      parameter to the same value. */
  lemma SameKeyIffSameBinding(f: Func, args1: seq<string>, kwargs1: map<string, string>,
                              args2: seq<string>, kwargs2: map<string, string>)
    requires WellFormed(f.sig) && ProperCall(f.sig, args1, kwargs1) && ProperCall(f.sig, args2, kwargs2)
    requires KeySafeCall(f, args1, kwargs1) && KeySafeCall(f, args2, kwargs2)
    ensures CallKey(f, args1, kwargs1) == CallKey(f, args2, kwargs2) <==>
            forall j :: 0 <= j < |f.sig.names| ==>
              BoundValue(f.sig, args1, kwargs1, j) == BoundValue(f.sig, args2, kwargs2, j)
  {
    if forall j :: 0 <= j < |f.sig.names| ==>
         BoundValue(f.sig, args1, kwargs1, j) == BoundValue(f.sig, args2, kwargs2, j)
    {
      EquivalentCallsSameKey(f, args1, kwargs1, args2, kwargs2);
    }
    if CallKey(f, args1, kwargs1) == CallKey(f, args2, kwargs2) {
      CallKeyRoundTrip(f, args1, kwargs1);
      CallKeyRoundTrip(f, args2, kwargs2);
      var p := f.sig.posOnly;
      forall j | 0 <= j < |f.sig.names|
        ensures BoundValue(f.sig, args1, kwargs1, j) == BoundValue(f.sig, args2, kwargs2, j)
      {
        if j < p {
          assert args1[..p][j] == args1[j] && args2[..p][j] == args2[j];
        }
      }
    }
  }

  /** With the defaults applied, keys are canonical in both directions: two
      calls Python accepts get the same key exactly when they bind every
      parameter, defaulted ones included, to the same value. */
  lemma BoundKeysCanonical(f: Func, defaults: Defaults, args1: seq<string>, kwargs1: map<string, string>,
                           args2: seq<string>, kwargs2: map<string, string>)
    requires WellFormed(f.sig) && BoundKey(f, defaults, args1, kwargs1).Ok? && BoundKey(f, defaults, args2, kwargs2).Ok?
    requires var a1 := FillArgs(f.sig, defaults, args1);
             KeySafeCall(f, a1, FillKwargs(f.sig, defaults, a1, kwargs1))
    requires var a2 := FillArgs(f.sig, defaults, args2);
             KeySafeCall(f, a2, FillKwargs(f.sig, defaults, a2, kwargs2))
    ensures var a1 := FillArgs(f.sig, defaults, args1);
            var a2 := FillArgs(f.sig, defaults, args2);
            var kw1 := FillKwargs(f.sig, defaults, a1, kwargs1);
            var kw2 := FillKwargs(f.sig, defaults, a2, kwargs2);
            BoundKey(f, defaults, args1, kwargs1) == BoundKey(f, defaults, args2, kwargs2) <==>
            forall j :: 0 <= j < |f.sig.names| ==> BoundValue(f.sig, a1, kw1, j) == BoundValue(f.sig, a2, kw2, j)
  {
    var a1 := FillArgs(f.sig, defaults, args1);
    var a2 := FillArgs(f.sig, defaults, args2);
    SameKeyIffSameBinding(f, a1, FillKwargs(f.sig, defaults, a1, kwargs1), a2, FillKwargs(f.sig, defaults, a2, kwargs2));
  }

  /** `def f(a=0, b=0)`: `f(1)` takes `b` from its default, and `f(b=1)`
      takes `a` from its default. */
  lemma DefaultsFilled()
    ensures FillKwargs(Signature(0, ["a", "b"]), map["a" := "0", "b" := "0"], ["1"], map[]) == map["b" := "0"]
    ensures FillKwargs(Signature(0, ["a", "b"]), map["a" := "0", "b" := "0"], [], map["b" := "1"])
            == map["a" := "0", "b" := "1"]
  {
    var sig := Signature(0, ["a", "b"]);
    assert Later(sig, 1) == ["b"] && Later(sig, 0) == ["a", "b"];
  }

  /** The walk over the two completed calls binds every parameter by keyword. */
  lemma DefaultedRebinds()
    ensures Rebind(Signature(0, ["a", "b"]), ["1"], map["b" := "0"]) == Binding([], [("b", "0"), ("a", "1")])
    ensures Rebind(Signature(0, ["a", "b"]), [], map["a" := "0", "b" := "1"]) == Binding([], [("b", "1"), ("a", "0")])
  {
    var sig := Signature(0, ["a", "b"]);
    assert Visited(sig, 0) == "b" && Visited(sig, 1) == "a";
    var empty: Pairs := [];
    var one: seq<string> := ["1"];
    var kw1: map<string, string> := map["b" := "0"];
    assert empty + [("b", "0")] == [("b", "0")];
    assert one[..0] == [] && one[0] == "1";
    var b1 := Binding(one, [("b", "0")]);
    assert Step(sig, kw1, 0, Binding(one, empty)) == Some(b1);
    assert [("b", "0")] + [("a", "1")] == [("b", "0"), ("a", "1")];
    assert Step(sig, kw1, 1, b1) == Some(Binding([], [("b", "0"), ("a", "1")]));
    var kw2: map<string, string> := map["a" := "0", "b" := "1"];
    assert empty + [("b", "1")] == [("b", "1")];
    var b2 := Binding([], [("b", "1")]);
    assert Step(sig, kw2, 0, Binding([], empty)) == Some(b2);
    assert [("b", "1")] + [("a", "0")] == [("b", "1"), ("a", "0")];
    assert Step(sig, kw2, 1, b2) == Some(Binding([], [("b", "1"), ("a", "0")]));
  }

  /** The keys of the two completed calls. */
  lemma DefaultedRenders()
    ensures Render("m.f", Binding([], [("b", "0"), ("a", "1")])) == "m.f:?::&:b=0:::a=1"
    ensures Render("m.f", Binding([], [("b", "1"), ("a", "0")])) == "m.f:?::&:b=1:::a=0"
  {
    assert KwPiece(("b", "0")) == "b=0" && KwPiece(("a", "1")) == "a=1";
    assert KwPieces([("b", "0"), ("a", "1")]) == ["b=0", "a=1"];
    assert KwPiece(("b", "1")) == "b=1" && KwPiece(("a", "0")) == "a=0";
    assert KwPieces([("b", "1"), ("a", "0")]) == ["b=1", "a=0"];
    assert Join(["b=0", "a=1"], ParamSep) == "b=0:::a=1";
    assert Join(["b=1", "a=0"], ParamSep) == "b=1:::a=0";
  }

  /** `def f(a=0, b=0)` called as `f(1)`: with the defaults applied the call
      binds `a=1, b=0`. */
  lemma DefaultedPositionalKey()
    ensures BoundKey(Func("m", "f", Signature(0, ["a", "b"])), map["a" := "0", "b" := "0"], ["1"], map[])
            == Ok("m.f:?::&:b=0:::a=1")
  {
    var f := Func("m", "f", Signature(0, ["a", "b"]));
    var d: Defaults := map["a" := "0", "b" := "0"];
    var one: seq<string> := ["1"];
    var kw: map<string, string> := map["b" := "0"];
    assert FillArgs(f.sig, d, one) == one;
    DefaultsFilled();
    assert ProperCall(f.sig, one, kw);
    DefaultedRebinds();
    DefaultedRenders();
    assert Prefix(f) == "m.f";
  }

  /** `def f(a=0, b=0)` called as `f(b=1)`: with the defaults applied the
      call binds `a=0, b=1`. */
  lemma DefaultedKeywordKey()
    ensures BoundKey(Func("m", "f", Signature(0, ["a", "b"])), map["a" := "0", "b" := "0"], [], map["b" := "1"])
            == Ok("m.f:?::&:b=1:::a=0")
  {
    var f := Func("m", "f", Signature(0, ["a", "b"]));
    var d: Defaults := map["a" := "0", "b" := "0"];
    var zero: seq<string> := [];
    var kw: map<string, string> := map["a" := "0", "b" := "1"];
    assert FillArgs(f.sig, d, zero) == zero;
    DefaultsFilled();
    assert ProperCall(f.sig, zero, kw);
    DefaultedRebinds();
    DefaultedRenders();
    assert Prefix(f) == "m.f";
  }

  /** With the defaults applied, `f(1)` and `f(b=1)` for `def f(a=0, b=0)`
      get different keys, so neither is served the other's result. */
  lemma DefaultedCallsKeptApart()
    ensures BoundKey(Func("m", "f", Signature(0, ["a", "b"])), map["a" := "0", "b" := "0"], ["1"], map[])
            != BoundKey(Func("m", "f", Signature(0, ["a", "b"])), map["a" := "0", "b" := "0"], [], map["b" := "1"])
  {
    DefaultedPositionalKey();
    DefaultedKeywordKey();
    var k1: string := "m.f:?::&:b=0:::a=1";
    assert k1[11] == '0';
  }

  /** The encoder with defaults applied: the key of `BoundKey`, computed with
      the `all_as_kwargs` walk once every parameter is passed. */
  method BoundKeyFromFunctionCall(f: Func, defaults: Defaults, args: seq<string>, kwargs: map<string, string>)
    returns (key: Result<string, Error>)
    requires WellFormed(f.sig)
    ensures key == BoundKey(f, defaults, args, kwargs)
  {
    var a := FillArgs(f.sig, defaults, args);
    var kw := FillKwargs(f.sig, defaults, a, kwargs);
    if !ProperCall(f.sig, a, kw) {
      return Err(TypeError);
    }
    var k := KeyFromFunctionCall(f, a, kw);
    return Ok(k);
  }
}
