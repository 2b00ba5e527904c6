/**
 * The validation engine: a property lists the names of its checks, and the
 * validator invokes, for each name in order, the property's handler called
 * `validate_<name>` when one is callable, and-ing the results together with
 * PHP's short-circuiting `&&`. A failing handler records one error (its
 * machine-readable code) in the validator before returning false.
 *
 * Which handler names are callable depends on method resolution in classes
 * outside this model, so the handlers are given as a partial map from the
 * handler name to the verdict that handler returns for the property's
 * current state (handlers read the property; they only write errors).
 */
module PropertyValidation {

  /** What a handler returns: pass, or fail after recording the error `code`. */
  datatype Verdict = Pass | Fail(code: string)

  /** The handler looked up for the check called `m`. */
  function HandlerName(m: string): (h: string)
    ensures |h| == |m| + 9 && h[9..] == m
  {
    "validate_" + m
  }

  predicate Callable(m: string, handlers: map<string, Verdict>) {
    HandlerName(m) in handlers
  }

  predicate Fails(m: string, handlers: map<string, Verdict>) {
    Callable(m, handlers) && handlers[HandlerName(m)].Fail?
  }

  /** Every callable handler among `methods` passes. */
  predicate AllPass(methods: seq<string>, handlers: map<string, Verdict>) {
    forall i :: 0 <= i < |methods| ==> !Fails(methods[i], handlers)
  }

  /** The names whose handlers are callable, in order. */
  function CallableNames(methods: seq<string>, handlers: map<string, Verdict>): (r: seq<string>)
    ensures |r| <= |methods|
    ensures forall m :: m in r ==> m in methods && Callable(m, handlers)
  {
    if |methods| == 0 then []
    else
      var prev := CallableNames(methods[..|methods| - 1], handlers);
      var m := methods[|methods| - 1];
      if Callable(m, handlers) then prev + [m] else prev
  }

  /**
   * The names whose handlers `&&` lets run, in order: a callable handler
   * runs while every earlier one has passed.
   */
  function Invoked(methods: seq<string>, handlers: map<string, Verdict>): (r: seq<string>)
    ensures |r| <= |methods|
    ensures forall m :: m in r ==> m in methods && Callable(m, handlers)
  {
    if |methods| == 0 then []
    else
      var init := methods[..|methods| - 1];
      var m := methods[|methods| - 1];
      if Callable(m, handlers) && AllPass(init, handlers) then Invoked(init, handlers) + [m]
      else Invoked(init, handlers)
  }

  /** The code of the first failing callable handler, if any. */
  function FirstFailure(methods: seq<string>, handlers: map<string, Verdict>): (r: seq<string>)
    ensures |r| <= 1
    ensures r == [] <==> AllPass(methods, handlers)
  {
    if |methods| == 0 then []
    else
      var init := methods[..|methods| - 1];
      var m := methods[|methods| - 1];
      if AllPass(init, handlers) && Fails(m, handlers) then [handlers[HandlerName(m)].code]
      else
        var r := FirstFailure(init, handlers);
        assert AllPass(methods, handlers) <==> AllPass(init, handlers) && !Fails(m, handlers) by {
          assert forall i :: 0 <= i < |init| ==> methods[i] == init[i];
        }
        r
  }

  /** The codes of every failing callable handler, in order. */
  function AllFailures(methods: seq<string>, handlers: map<string, Verdict>): (r: seq<string>)
    ensures |r| <= |methods|
    ensures r == [] <==> AllPass(methods, handlers)
  {
    if |methods| == 0 then []
    else
      var init := methods[..|methods| - 1];
      var m := methods[|methods| - 1];
      var r := AllFailures(init, handlers);
      assert AllPass(methods, handlers) <==> AllPass(init, handlers) && !Fails(m, handlers) by {
        assert forall i :: 0 <= i < |init| ==> methods[i] == init[i];
      }
      if Fails(m, handlers) then r + [handlers[HandlerName(m)].code] else r
  }

  lemma AllPassPrefix(methods: seq<string>, k: nat, handlers: map<string, Verdict>)
    requires k <= |methods|
    requires AllPass(methods, handlers)
    ensures AllPass(methods[..k], handlers)
  {
  }

  /** When no check fails, every callable handler is invoked. */
  lemma {:induction false} AllInvokedWhenAllPass(methods: seq<string>, handlers: map<string, Verdict>)
    requires AllPass(methods, handlers)
    ensures Invoked(methods, handlers) == CallableNames(methods, handlers)
    decreases |methods|
  {
    if |methods| > 0 {
      var init := methods[..|methods| - 1];
      AllPassPrefix(methods, |methods| - 1, handlers);
      AllInvokedWhenAllPass(init, handlers);
    }
  }

  /**
   * Short circuit: once the handler of `methods[k]` has failed, no later
   * handler is invoked.
   */
  lemma {:induction false} NothingInvokedAfterFailure(methods: seq<string>, k: nat, handlers: map<string, Verdict>)
    requires k < |methods| && Fails(methods[k], handlers)
    ensures Invoked(methods, handlers) == Invoked(methods[..k + 1], handlers)
    decreases |methods|
  {
    if |methods| > k + 1 {
      var init := methods[..|methods| - 1];
      assert !AllPass(init, handlers) by { assert init[k] == methods[k]; }
      NothingInvokedAfterFailure(init, k, handlers);
      assert init[..k + 1] == methods[..k + 1];
    } else {
      assert methods[..k + 1] == methods;
    }
  }

  /** The invoked handlers all pass, except the last one when the result is false. */
  lemma {:induction false} InvokedPassBeforeLast(methods: seq<string>, handlers: map<string, Verdict>)
    ensures var inv := Invoked(methods, handlers);
      forall j :: 0 <= j < |inv| - 1 ==> !Fails(inv[j], handlers)
    ensures !AllPass(methods, handlers) ==>
      |Invoked(methods, handlers)| > 0 && Fails(Invoked(methods, handlers)[|Invoked(methods, handlers)| - 1], handlers)
    decreases |methods|
  {
    if |methods| > 0 {
      var init := methods[..|methods| - 1];
      var m := methods[|methods| - 1];
      InvokedPassBeforeLast(init, handlers);
      assert AllPass(methods, handlers) <==> AllPass(init, handlers) && !Fails(m, handlers) by {
        assert forall i :: 0 <= i < |init| ==> methods[i] == init[i];
      }
      if Callable(m, handlers) && AllPass(init, handlers) {
        var inv := Invoked(init, handlers);
        forall j | 0 <= j < |inv| ensures !Fails(inv[j], handlers) {
          assert inv[j] in inv;
          var i :| 0 <= i < |init| && init[i] == inv[j];
        }
      }
    }
  }

  /**
   * The result of `validate()` is the conjunction of the verdicts of the
   * handlers that ran.
   */
  lemma ResultIsConjunctionOfInvoked(methods: seq<string>, handlers: map<string, Verdict>)
    ensures AllPass(methods, handlers) <==>
      forall j :: 0 <= j < |Invoked(methods, handlers)| ==> !Fails(Invoked(methods, handlers)[j], handlers)
  {
    InvokedPassBeforeLast(methods, handlers);
    var inv := Invoked(methods, handlers);
    if AllPass(methods, handlers) {
      forall j | 0 <= j < |inv| ensures !Fails(inv[j], handlers) {
        assert inv[j] in inv;
        var i :| 0 <= i < |methods| && methods[i] == inv[j];
      }
    }
  }

  /** All pass on `methods[..i + 1]` when all pass on `methods[..i]` and `methods[i]` does not fail. */
  lemma AllPassExtend(methods: seq<string>, i: nat, handlers: map<string, Verdict>)
    requires i < |methods|
    ensures AllPass(methods[..i + 1], handlers) <==> AllPass(methods[..i], handlers) && !Fails(methods[i], handlers)
  {
    var next := methods[..i + 1];
    assert forall k :: 0 <= k < i ==> next[k] == methods[..i][k];
  }

  /** How the short-circuit loop's specification extends from `methods[..i]` to `methods[..i + 1]`. */
  lemma InvokedExtend(methods: seq<string>, i: nat, handlers: map<string, Verdict>)
    requires i < |methods|
    ensures var init, m, next := methods[..i], methods[i], methods[..i + 1];
      Invoked(next, handlers) ==
        (if Callable(m, handlers) && AllPass(init, handlers) then Invoked(init, handlers) + [m]
         else Invoked(init, handlers)) &&
      FirstFailure(next, handlers) ==
        (if AllPass(init, handlers) && Fails(m, handlers) then [handlers[HandlerName(m)].code]
         else FirstFailure(init, handlers))
  {
    assert methods[..i + 1][..i] == methods[..i];
  }

  /** How the every-handler loop's specification extends from `methods[..i]` to `methods[..i + 1]`. */
  lemma CallableExtend(methods: seq<string>, i: nat, handlers: map<string, Verdict>)
    requires i < |methods|
    ensures Callable(methods[i], handlers) ==>
      CallableNames(methods[..i + 1], handlers) == CallableNames(methods[..i], handlers) + [methods[i]]
    ensures !Callable(methods[i], handlers) ==>
      CallableNames(methods[..i + 1], handlers) == CallableNames(methods[..i], handlers)
    ensures Fails(methods[i], handlers) ==>
      AllFailures(methods[..i + 1], handlers) == AllFailures(methods[..i], handlers) + [handlers[HandlerName(methods[i])].code]
    ensures !Fails(methods[i], handlers) ==>
      AllFailures(methods[..i + 1], handlers) == AllFailures(methods[..i], handlers)
  {
    assert methods[..i + 1][..i] == methods[..i];
  }

  /**
   * Holds the errors recorded by a property's handlers. `calls` traces the
   * names whose handlers were invoked.
   */
  class PropertyValidator {
    var errors: seq<string>
    ghost var calls: seq<string>

    constructor ()
      ensures errors == [] && calls == []
    {
      errors := [];
      calls := [];
    }

    /** `error($message, $ident)`: record one error. */
    method Error(code: string)
      modifies this
      ensures errors == old(errors) + [code] && calls == old(calls)
    {
      errors := errors + [code];
    }

    /** One handler call: the handler of `m` runs, and a failure records its code. */
    method Run(m: string, handlers: map<string, Verdict>) returns (pass: bool)
      requires Callable(m, handlers)
      modifies this
      ensures pass <==> !Fails(m, handlers)
      ensures calls == old(calls) + [m]
      ensures errors == old(errors) + if Fails(m, handlers) then [handlers[HandlerName(m)].code] else []
    {
      calls := calls + [m];
      var v := handlers[HandlerName(m)];
      if v.Fail? {
        Error(v.code);
      }
      pass := v.Pass?;
    }

    /** `validate()`: one `$ret = $ret && handler()` step per name. */
    method Validate(methods: seq<string>, handlers: map<string, Verdict>) returns (ret: bool)
      modifies this
      ensures ret == AllPass(methods, handlers)
      ensures calls == old(calls) + Invoked(methods, handlers)
      ensures errors == old(errors) + FirstFailure(methods, handlers)
    {
      ret := true;
      var i := 0;
      while i < |methods|
        invariant 0 <= i <= |methods|
        invariant ret == AllPass(methods[..i], handlers)
        invariant calls == old(calls) + Invoked(methods[..i], handlers)
        invariant errors == old(errors) + FirstFailure(methods[..i], handlers)
      {
        var m := methods[i];
        AllPassExtend(methods, i, handlers);
        InvokedExtend(methods, i, handlers);
        if HandlerName(m) in handlers {
          if ret {
            calls := calls + [m];
            var v := handlers[HandlerName(m)];
            if v.Fail? {
              Error(v.code);
            }
            ret := v.Pass?;
          }
        }
        i := i + 1;
      }
      assert methods[..i] == methods;
    }

    /**
     * The evidently intended `validate()`: every callable handler runs, so
     * every failing check records its error; the result is unchanged.
     */
    method ValidateAll(methods: seq<string>, handlers: map<string, Verdict>) returns (ret: bool)
      modifies this
      ensures ret == AllPass(methods, handlers)
      ensures calls == old(calls) + CallableNames(methods, handlers)
      ensures errors == old(errors) + AllFailures(methods, handlers)
    {
      ret := true;
      var i := 0;
      while i < |methods|
        invariant 0 <= i <= |methods|
        invariant ret == AllPass(methods[..i], handlers)
        invariant calls == old(calls) + CallableNames(methods[..i], handlers)
        invariant errors == old(errors) + AllFailures(methods[..i], handlers)
      {
        var m := methods[i];
        AllPassExtend(methods, i, handlers);
        CallableExtend(methods, i, handlers);
        if HandlerName(m) in handlers {
          var pass := Run(m, handlers);
          ret := ret && pass;
        }
        i := i + 1;
      }
      assert methods[..i] == methods;
    }
  }

  /**
   * The short circuit loses errors: with two failing checks, `validate()`
   * records one error where every check's error was meant to be reported.
   */
  lemma ShortCircuitLosesErrors()
    ensures var handlers := map["validate_required" := Fail("required"), "validate_min" := Fail("min")];
      FirstFailure(["required", "min"], handlers) == ["required"] &&
      AllFailures(["required", "min"], handlers) == ["required", "min"] &&
      Invoked(["required", "min"], handlers) == ["required"]
  {
    var handlers := map["validate_required" := Fail("required"), "validate_min" := Fail("min")];
    var ms := ["required", "min"];
    assert ms[..1] == ["required"];
    assert ms[..1][..0] == [];
    assert HandlerName("required") == "validate_required";
    assert HandlerName("min") == "validate_min";
    assert !AllPass(ms[..1], handlers) by { assert Fails(ms[..1][0], handlers); }
  }

  /** Both loops agree on the result and on the errors when at most one check fails. */
  lemma {:induction false} SameErrorsWithOneFailure(methods: seq<string>, handlers: map<string, Verdict>)
    requires |AllFailures(methods, handlers)| <= 1
    ensures FirstFailure(methods, handlers) == AllFailures(methods, handlers)
    decreases |methods|
  {
    if |methods| > 0 {
      var init := methods[..|methods| - 1];
      var m := methods[|methods| - 1];
      SameErrorsWithOneFailure(init, handlers);
    }
  }
}
