/** Sequences of `addField` calls on one builder. Because every `addField`
    returns the builder it was called on, `b.addField(x).addField(y)` and the
    statements `b.addField(x); b.addField(y);` do the same thing. This module
    states that, and characterises which call sequences a builder accepts. */
module Chaining {
  import opened Wrappers
  import opened Fields
  import opened StreamSchemas

  /** One `addField` call: the two-argument or the three-argument overload. */
  datatype Call<T, W> =
    | Plain(name: Option<string>, fieldType: T)
    | Windowed(name: Option<string>, fieldType: T, window: W)

  /** The window attribute a call asks for. */
  function WindowOf<T, W>(c: Call<T, W>): Option<W>
  {
    match c
    case Plain(_, _) => None
    case Windowed(_, _, w) => Some(w)
  }

  /** The field `f` is the one call `c` asked to add. */
  ghost predicate Records<T, W>(f: Field<T, W>, c: Call<T, W>)
  {
    c.name == Some(f.name) && f.fieldType == c.fieldType && f.window == WindowOf(c)
  }

  /** Dispatch to the overload the call names. */
  function Invoke<T, W>(b: Builder<T, W>, c: Call<T, W>): Result<Builder<T, W>, Error>
  {
    match c
    case Plain(n, t) => AddField(b, n, t)
    case Windowed(n, t, w) => AddWindowedField(b, n, t, w)
  }

  /** A call chain: each call is made on the builder the previous one
      returned, and the first exception ends the chain. */
  function Chain<T, W>(b: Builder<T, W>, calls: seq<Call<T, W>>): Result<Builder<T, W>, Error>
    decreases |calls|
  {
    if |calls| == 0 then Success(b)
    else match Invoke(b, calls[0])
      case Failure(e) => Failure(e)
      case Success(b1) => Chain(b1, calls[1..])
  }

  /** The mutable builder object after a statement, and the exception the
      statement threw, if any. */
  datatype Outcome<T, W> = Outcome(state: Builder<T, W>, thrown: Option<Error>)

  /** One `addField` statement on the builder object: `fieldCheck`, then
      `fieldNames.add`, then `fields.add`. Only `fieldCheck` is modelled as
      throwing; building the field and adding it are taken never to throw.
      An exception from the check leaves the object as it was. */
  function Exec<T, W>(b: Builder<T, W>, c: Call<T, W>): Outcome<T, W>
  {
    match FieldCheck(b.fieldNames, c.name)
    case Failure(e) => Outcome(b, Some(e))
    case Success(n) =>
      var named := b.(fieldNames := b.fieldNames + {n});
      Outcome(named.(fields := named.fields + [Field(n, c.fieldType, WindowOf(c))]), None)
  }

  /** Separate statements on one builder object, stopping at the first
      exception. */
  function Sequential<T, W>(b: Builder<T, W>, calls: seq<Call<T, W>>): Outcome<T, W>
    decreases |calls|
  {
    if |calls| == 0 then Outcome(b, None)
    else
      var o := Exec(b, calls[0]);
      if o.thrown.Some? then o else Sequential(o.state, calls[1..])
  }

  /** A statement that throws leaves the object unchanged; one that does not
      throw leaves it equal to the builder `addField` returns. */
  lemma ExecAgreesWithInvoke<T, W>(b: Builder<T, W>, c: Call<T, W>)
    ensures Exec(b, c).thrown.Some? <==> Invoke(b, c).Failure?
    ensures Exec(b, c).thrown.Some? ==> Exec(b, c).state == b && Exec(b, c).thrown == Some(Invoke(b, c).error)
    ensures Exec(b, c).thrown.None? ==> Exec(b, c).state == Invoke(b, c).value
  {
  }

  /** Chained calls and sequential statements agree: the chain returns a
      builder exactly when no statement throws, that builder is the object's
      final state, and a failing chain throws what the statements throw. */
  lemma {:induction false} ChainIsSequential<T, W>(b: Builder<T, W>, calls: seq<Call<T, W>>)
    ensures Chain(b, calls).Success? <==> Sequential(b, calls).thrown.None?
    ensures Chain(b, calls).Success? ==> Chain(b, calls).value == Sequential(b, calls).state
    ensures Chain(b, calls).Failure? ==> Sequential(b, calls).thrown == Some(Chain(b, calls).error)
    decreases |calls|
  {
    if |calls| > 0 {
      ExecAgreesWithInvoke(b, calls[0]);
      if Invoke(b, calls[0]).Success? {
        ChainIsSequential(Invoke(b, calls[0]).value, calls[1..]);
      }
    }
  }

  /** Reference definition of the calls a builder accepts: every name is
      non-null and not yet used, and no two calls share a name. */
  predicate Admissible<T, W>(used: set<string>, calls: seq<Call<T, W>>)
  {
    && (forall i :: 0 <= i < |calls| ==> calls[i].name.Some? && calls[i].name.value !in used)
    && (forall i, j :: 0 <= i < j < |calls| ==> calls[i].name != calls[j].name)
  }

  /** Admissibility peels off the first call. */
  lemma AdmissibleCons<T, W>(used: set<string>, calls: seq<Call<T, W>>)
    requires |calls| > 0
    ensures Admissible(used, calls) <==>
      calls[0].name.Some? && calls[0].name.value !in used
      && Admissible(used + {calls[0].name.value}, calls[1..])
  {
    var rest := calls[1..];
    if calls[0].name.Some? && calls[0].name.value !in used
      && Admissible(used + {calls[0].name.value}, rest)
    {
      forall i, j | 0 <= i < j < |calls|
        ensures calls[i].name != calls[j].name
      {
        if i > 0 {
          assert calls[i] == rest[i - 1] && calls[j] == rest[j - 1];
        } else {
          assert calls[j] == rest[j - 1];
        }
      }
    }
    if Admissible(used, calls) {
      forall i | 0 <= i < |rest|
        ensures rest[i].name.Some? && rest[i].name.value !in used + {calls[0].name.value}
      {
        assert rest[i] == calls[i + 1];
      }
      forall i, j | 0 <= i < j < |rest|
        ensures rest[i].name != rest[j].name
      {
        assert rest[i] == calls[i + 1] && rest[j] == calls[j + 1];
      }
    }
  }

  /** The error a call gets when it is the first one rejected: an argument
      error for a null name, a state error otherwise. */
  function RejectionOf<T, W>(c: Call<T, W>): Error
  {
    if c.name.None? then IllegalArgument(NullNameMessage) else IllegalState(DuplicateNameMessage)
  }

  /** The non-null names the calls ask for. */
  function CallNames<T, W>(calls: seq<Call<T, W>>): set<string>
  {
    set i | 0 <= i < |calls| && calls[i].name.Some? :: calls[i].name.value
  }

  lemma CallNamesCons<T, W>(calls: seq<Call<T, W>>)
    requires |calls| > 0 && calls[0].name.Some?
    ensures CallNames(calls) == {calls[0].name.value} + CallNames(calls[1..])
  {
    var rest := calls[1..];
    forall i | 0 <= i < |rest| && rest[i].name.Some?
      ensures rest[i].name.value in CallNames(calls)
    {
      assert rest[i] == calls[i + 1];
    }
    forall i | 0 <= i < |calls| && calls[i].name.Some?
      ensures calls[i].name.value in {calls[0].name.value} + CallNames(rest)
    {
      if i > 0 {
        assert calls[i] == rest[i - 1];
      }
    }
  }

  /** The fields `fs` keep `prefix` and then record `calls`, one per call. */
  ghost predicate AppendsRecords<T, W>(prefix: seq<Field<T, W>>, calls: seq<Call<T, W>>, fs: seq<Field<T, W>>)
  {
    && |fs| == |prefix| + |calls|
    && fs[..|prefix|] == prefix
    && (forall i :: 0 <= i < |calls| ==> Records(fs[|prefix| + i], calls[i]))
  }

  lemma AppendsRecordsCons<T, W>(prefix: seq<Field<T, W>>, f: Field<T, W>, calls: seq<Call<T, W>>, fs: seq<Field<T, W>>)
    requires |calls| > 0 && Records(f, calls[0])
    requires AppendsRecords(prefix + [f], calls[1..], fs)
    ensures AppendsRecords(prefix, calls, fs)
  {
    assert fs[..|prefix|] == (prefix + [f])[..|prefix|];
    forall i | 0 <= i < |calls|
      ensures Records(fs[|prefix| + i], calls[i])
    {
      if i == 0 {
        assert fs[|prefix|] == (prefix + [f])[|prefix|];
      } else {
        assert calls[i] == calls[1..][i - 1];
      }
    }
  }

  /** A chain succeeds exactly on admissible calls, and then appends one
      field per call, in call order, each recording what its call asked for,
      after the fields already present; the name set grows by the call names. */
  lemma {:induction false} ChainAccepts<T, W>(b: Builder<T, W>, calls: seq<Call<T, W>>)
    ensures Chain(b, calls).Success? <==> Admissible(b.fieldNames, calls)
    ensures Chain(b, calls).Success? ==> AppendsRecords(b.fields, calls, Chain(b, calls).value.fields)
    ensures Chain(b, calls).Success? ==> Chain(b, calls).value.fieldNames == b.fieldNames + CallNames(calls)
    decreases |calls|
  {
    if |calls| > 0 {
      AdmissibleCons(b.fieldNames, calls);
      var r := Invoke(b, calls[0]);
      if r.Success? {
        var n := calls[0].name.value;
        var f := Field(n, calls[0].fieldType, WindowOf(calls[0]));
        assert r.value == Builder(b.fieldNames + {n}, b.fields + [f]);
        ChainAccepts(r.value, calls[1..]);
        if Chain(b, calls).Success? {
          AppendsRecordsCons(b.fields, f, calls, Chain(b, calls).value.fields);
          CallNamesCons(calls);
        }
      }
    }
  }

  /** Call `i` is the first one a builder holding the names `used` rejects:
      the calls before it are admissible, and its name is null, already used,
      or repeats the name of an earlier call. */
  predicate FirstRejected<T, W>(used: set<string>, calls: seq<Call<T, W>>, i: int)
  {
    && 0 <= i < |calls|
    && Admissible(used, calls[..i])
    && (|| calls[i].name.None?
        || calls[i].name.value in used
        || exists j :: 0 <= j < i && calls[j].name == calls[i].name)
  }

  /** A chain throws at its first rejected call: `IllegalArgument` for a null
      name, `IllegalState` for a repeated one. The object then holds exactly
      what the calls before the rejected one built. */
  lemma {:induction false} ChainRejects<T, W>(b: Builder<T, W>, calls: seq<Call<T, W>>, i: int)
    requires FirstRejected(b.fieldNames, calls, i)
    ensures Chain(b, calls) == Failure(RejectionOf(calls[i]))
    ensures Sequential(b, calls[..i]).thrown.None?
    ensures Sequential(b, calls) == Outcome(Sequential(b, calls[..i]).state, Some(RejectionOf(calls[i])))
    decreases i
  {
    if i > 0 {
      var n := calls[0].name.value;
      var rest := calls[1..];
      assert calls[..i][0] == calls[0];
      assert calls[..i][1..] == rest[..i - 1];
      AdmissibleCons(b.fieldNames, calls[..i]);
      ExecAgreesWithInvoke(b, calls[0]);
      var b1 := Invoke(b, calls[0]).value;
      assert b1.fieldNames == b.fieldNames + {n};
      if calls[i].name.Some? && calls[i].name.value !in b1.fieldNames {
        var j :| 0 <= j < i && calls[j].name == calls[i].name;
        assert j > 0;
        assert rest[j - 1] == calls[j];
      }
      assert rest[i - 1] == calls[i];
      assert FirstRejected(b1.fieldNames, rest, i - 1);
      ChainRejects(b1, rest, i - 1);
      assert calls[..i][1..] == rest[..i - 1];
    }
  }

  /** Every call sequence a builder does not admit has a first rejected
      call. */
  lemma {:induction false} FirstRejectionExists<T, W>(used: set<string>, calls: seq<Call<T, W>>)
    requires !Admissible(used, calls)
    ensures exists i :: FirstRejected(used, calls, i)
    decreases |calls|
  {
    var m := |calls| - 1;
    var init := calls[..m];
    if Admissible(used, init) {
      assert calls[..m] == init;
      if calls[m].name.Some? && calls[m].name.value !in used {
        forall j | 0 <= j < m
          ensures calls[j].name.Some? && calls[j].name.value !in used
        {
          assert init[j] == calls[j];
        }
        var i, j :| 0 <= i < j < |calls| && calls[i].name == calls[j].name;
        assert FirstRejected(used, calls, m);
      } else {
        assert FirstRejected(used, calls, m);
      }
    } else {
      FirstRejectionExists(used, init);
      var i :| FirstRejected(used, init, i);
      assert init[..i] == calls[..i];
      assert init[i] == calls[i];
      if calls[i].name.Some? && calls[i].name.value !in used {
        var j :| 0 <= j < i && init[j].name == init[i].name;
        assert calls[j].name == calls[i].name;
      }
      assert FirstRejected(used, calls, i);
    }
  }

  /** A chain that fails, fails at its first rejected call, with that call's
      error. */
  lemma ChainFailureLocated<T, W>(b: Builder<T, W>, calls: seq<Call<T, W>>)
    requires Chain(b, calls).Failure?
    ensures exists i :: FirstRejected(b.fieldNames, calls, i) && Chain(b, calls).error == RejectionOf(calls[i])
  {
    ChainAccepts(b, calls);
    FirstRejectionExists(b.fieldNames, calls);
    var i :| FirstRejected(b.fieldNames, calls, i);
    ChainRejects(b, calls, i);
  }

  /** A chain from a valid builder that succeeds keeps the builder valid. */
  lemma {:induction false} ChainPreservesValid<T, W>(b: Builder<T, W>, calls: seq<Call<T, W>>)
    requires Valid(b)
    ensures Chain(b, calls).Success? ==> Valid(Chain(b, calls).value)
    decreases |calls|
  {
    if |calls| > 0 && Invoke(b, calls[0]).Success? {
      ChainPreservesValid(Invoke(b, calls[0]).value, calls[1..]);
    }
  }

  /** Building a schema from a fresh builder: the chain succeeds exactly when
      every name is non-null and the names are pairwise distinct, and then the
      schema lists one field per call, in call order, with distinct names. */
  lemma BuildAfterChain<T, W>(calls: seq<Call<T, W>>)
    ensures Chain(NewBuilder<T, W>(), calls).Success? <==>
      && (forall i :: 0 <= i < |calls| ==> calls[i].name.Some?)
      && (forall i, j :: 0 <= i < j < |calls| ==> calls[i].name != calls[j].name)
    ensures Chain(NewBuilder<T, W>(), calls).Success? ==>
      var s := Build(Chain(NewBuilder<T, W>(), calls).value);
      && |s.fields| == |calls|
      && DistinctNames(s.fields)
      && (forall i :: 0 <= i < |calls| ==> Records(s.fields[i], calls[i]))
  {
    ChainAccepts(NewBuilder<T, W>(), calls);
    ChainPreservesValid(NewBuilder<T, W>(), calls);
  }
}
