/** The shape of a GDAT field (`GDATField`): a name, a type and an optional
    sliding-window attribute, together with the facts about the names of a
    sequence of fields that the schema builder relies on. The field type and
    the window attribute are left abstract as the type parameters `T` and `W`. */
module Fields {
  import opened Wrappers

  /** One column of a stream schema. `window` is `None` for a field computed
      per event and `Some(w)` for one computed over a sliding window. */
  datatype Field<T, W> = Field(name: string, fieldType: T, window: Option<W>)

  /** The set of names used by `fs`. */
  function NameSet<T, W>(fs: seq<Field<T, W>>): set<string>
  {
    set i | 0 <= i < |fs| :: fs[i].name
  }

  /** No two fields of `fs` share a name. */
  predicate DistinctNames<T, W>(fs: seq<Field<T, W>>)
  {
    forall i, j :: 0 <= i < j < |fs| ==> fs[i].name != fs[j].name
  }

  /** Appending one field adds exactly its name to the name set. */
  lemma NameSetAppend<T, W>(fs: seq<Field<T, W>>, f: Field<T, W>)
    ensures NameSet(fs + [f]) == NameSet(fs) + {f.name}
  {
    var gs := fs + [f];
    assert gs[|fs|].name == f.name;
    forall n | n in NameSet(fs)
      ensures n in NameSet(gs)
    {
      var i :| 0 <= i < |fs| && fs[i].name == n;
      assert gs[i].name == n;
    }
  }

  /** Appending a field whose name is new keeps the names distinct. */
  lemma DistinctNamesAppend<T, W>(fs: seq<Field<T, W>>, f: Field<T, W>)
    requires DistinctNames(fs)
    requires f.name !in NameSet(fs)
    ensures DistinctNames(fs + [f])
  {
    var gs := fs + [f];
    forall i, j | 0 <= i < j < |gs|
      ensures gs[i].name != gs[j].name
    {
      if j == |fs| {
        assert fs[i].name in NameSet(fs);
      }
    }
  }

  /** With distinct names, there are exactly as many names as fields. */
  lemma {:induction false} DistinctNamesCount<T, W>(fs: seq<Field<T, W>>)
    requires DistinctNames(fs)
    ensures |NameSet(fs)| == |fs|
  {
    if |fs| > 0 {
      var init := fs[..|fs| - 1];
      var last := fs[|fs| - 1];
      assert fs == init + [last];
      assert DistinctNames(init);
      DistinctNamesCount(init);
      NameSetAppend(init, last);
    }
  }
}
