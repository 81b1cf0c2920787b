/** `StreamSchema.Builder`: accumulates the ordered fields of a stream schema,
    refusing a null name and a name already used, and wraps them into a
    schema on `build`. The builder is an immutable value here; each `addField`
    either returns the extended builder or the exception the call throws. */
module StreamSchemas {
  import opened Wrappers
  import opened Fields

  /** Messages of the two precondition failures of `fieldCheck`. */
  const NullNameMessage := "Field name cannot be null."
  const DuplicateNameMessage := "Field name already used."

  /** The exceptions the builder throws: `IllegalArgument` comes from
      `Preconditions.checkArgument`, `IllegalState` from `checkState`. */
  datatype Error = IllegalArgument(message: string) | IllegalState(message: string)

  /** The builder's two private collections: the set of names used so far and
      the list of fields in insertion order. */
  datatype Builder<T, W> = Builder(fieldNames: set<string>, fields: seq<Field<T, W>>)

  /** The schema handed out by `build`: an ordered list of fields. */
  datatype StreamSchema<T, W> = StreamSchema(fields: seq<Field<T, W>>)

  /** Representation invariant: the name set is exactly the set of names in
      the field list, and no name occurs twice in the list. */
  predicate Valid<T, W>(b: Builder<T, W>)
  {
    b.fieldNames == NameSet(b.fields) && DistinctNames(b.fields)
  }

  /** A freshly constructed builder: both collections empty. */
  function NewBuilder<T, W>(): (b: Builder<T, W>)
    ensures Valid(b)
    ensures b.fields == [] && b.fieldNames == {}
  {
    Builder({}, [])
  }

  /** `fieldCheck`: the null test comes first, then the duplicate test. On
      success it yields the (non-null) name. */
  function FieldCheck(fieldNames: set<string>, name: Option<string>): (r: Result<string, Error>)
    ensures r.Success? <==> name.Some? && name.value !in fieldNames
    ensures r.Success? ==> name == Some(r.value)
    ensures name.None? ==> r == Failure(IllegalArgument(NullNameMessage))
    ensures name.Some? && name.value in fieldNames ==> r == Failure(IllegalState(DuplicateNameMessage))
  {
    if name.None? then Failure(IllegalArgument(NullNameMessage))
    else if name.value in fieldNames then Failure(IllegalState(DuplicateNameMessage))
    else Success(name.value)
  }

  /** The body shared by both `addField` overloads: check, then record the
      name, then append the field. */
  function Append<T, W>(b: Builder<T, W>, name: Option<string>, fieldType: T, window: Option<W>)
    : Result<Builder<T, W>, Error>
  {
    match FieldCheck(b.fieldNames, name)
    case Failure(e) => Failure(e)
    case Success(n) => Success(Builder(b.fieldNames + {n}, b.fields + [Field(n, fieldType, window)]))
  }

  /** A successful append keeps the representation invariant. */
  lemma AppendPreservesValid<T, W>(b: Builder<T, W>, name: Option<string>, fieldType: T, window: Option<W>)
    requires Valid(b)
    ensures Append(b, name, fieldType, window).Success? ==> Valid(Append(b, name, fieldType, window).value)
  {
    if Append(b, name, fieldType, window).Success? {
      var f := Field(name.value, fieldType, window);
      NameSetAppend(b.fields, f);
      DistinctNamesAppend(b.fields, f);
    }
  }

  /** `addField(name, fieldType)`: a field without a window attribute. */
  function AddField<T, W>(b: Builder<T, W>, name: Option<string>, fieldType: T): (r: Result<Builder<T, W>, Error>)
    ensures name.None? ==> r == Failure(IllegalArgument(NullNameMessage))
    ensures name.Some? && name.value in b.fieldNames ==> r == Failure(IllegalState(DuplicateNameMessage))
    ensures r.Success? <==> name.Some? && name.value !in b.fieldNames
    ensures r.Success? ==> r.value.fields == b.fields + [Field(name.value, fieldType, None)]
    ensures r.Success? ==> r.value.fieldNames == b.fieldNames + {name.value}
    ensures r.Success? && Valid(b) ==> Valid(r.value)
  {
    if Valid(b) then AppendPreservesValid(b, name, fieldType, None); Append(b, name, fieldType, None)
    else Append(b, name, fieldType, None)
  }

  /** `addField(name, fieldType, windowAttribute)`: a field that records the
      given sliding-window attribute. */
  function AddWindowedField<T, W>(b: Builder<T, W>, name: Option<string>, fieldType: T, window: W)
    : (r: Result<Builder<T, W>, Error>)
    ensures name.None? ==> r == Failure(IllegalArgument(NullNameMessage))
    ensures name.Some? && name.value in b.fieldNames ==> r == Failure(IllegalState(DuplicateNameMessage))
    ensures r.Success? <==> name.Some? && name.value !in b.fieldNames
    ensures r.Success? ==> r.value.fields == b.fields + [Field(name.value, fieldType, Some(window))]
    ensures r.Success? ==> r.value.fieldNames == b.fieldNames + {name.value}
    ensures r.Success? && Valid(b) ==> Valid(r.value)
  {
    if Valid(b) then AppendPreservesValid(b, name, fieldType, Some(window)); Append(b, name, fieldType, Some(window))
    else Append(b, name, fieldType, Some(window))
  }

  /** In a valid builder there are exactly as many names as fields. */
  lemma ValidCounts<T, W>(b: Builder<T, W>)
    requires Valid(b)
    ensures |b.fieldNames| == |b.fields|
  {
    DistinctNamesCount(b.fields);
  }

  /** `build`: the schema lists the accumulated fields in insertion order;
      from a valid builder its names are pairwise distinct and are exactly
      the names the builder has seen. */
  function Build<T, W>(b: Builder<T, W>): (s: StreamSchema<T, W>)
    ensures s.fields == b.fields
    ensures Valid(b) ==> DistinctNames(s.fields) && NameSet(s.fields) == b.fieldNames
    ensures Valid(b) ==> |s.fields| == |b.fieldNames|
  {
    if Valid(b) then ValidCounts(b); StreamSchema(b.fields)
    else StreamSchema(b.fields)
  }
}
