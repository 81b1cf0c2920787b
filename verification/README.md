# Tigon stream-schema builder, modelled in Dafny

Tigon is a distributed dataflow engine. Its stream-SQL flowlets declare the
schema of their input streams with `StreamSchema.Builder`. A schema is an
ordered list of GDAT fields. Each field has a name, a field type and an
optional sliding-window attribute. The builder keeps two collections: the
set of names used so far and the list of fields in insertion order.
`addField` (two overloads) checks the name and then appends a field.
`build` wraps the list into a schema.

The name check (`fieldCheck`) rejects a null name with an
`IllegalArgumentException` and a name already used with an
`IllegalStateException`. It runs before either collection changes.

The model is functional:

- `fields.dfy` (`Fields`): the `GDATField` shape as a datatype, with
  the field type and window attribute left abstract as type parameters.
  It also holds the set of names of a field list and the distinct-names
  predicate.
- `stream_schema.dfy` (`StreamSchemas`): the builder state, the
  representation invariant `Valid`, `FieldCheck`, both overloads (`AddField`,
  `AddWindowedField`), and `Build`. A Java call that throws becomes
  `Failure(IllegalArgument(..))` or `Failure(IllegalState(..))`, carrying the
  source's messages.
- `chaining.dfy` (`Chaining`): sequences of calls. `Chain` models
  `b.addField(..).addField(..)`. `Exec`/`Sequential` model separate statements
  on one mutable builder object, keeping its state when a call throws.
  `Admissible` and `FirstRejected` are index-based reference definitions of
  which call sequences are accepted and where a rejected one fails.
- `wrappers.dfy` (`Wrappers`): `Option` (a Java reference that may be null)
  and `Result`.

## Model

| member | source | states |
|---|---|---|
| StreamSchemas.NewBuilder | tigon-sql/src/main/java/co/cask/tigon/sql/flowlet/StreamSchema.java:40-41 | A new builder has no names and no fields, and satisfies the representation invariant |
| StreamSchemas.FieldCheck | tigon-sql/src/main/java/co/cask/tigon/sql/flowlet/StreamSchema.java:43-46 | A name passes exactly when it is non-null and unused. A null name gives IllegalArgument("Field name cannot be null."). A used name gives IllegalState("Field name already used."). The null test wins |
| StreamSchemas.AddField | tigon-sql/src/main/java/co/cask/tigon/sql/flowlet/StreamSchema.java:48-53 | Null name gives an argument error and a used name a state error. Otherwise exactly one field (given name and type, no window) is appended after the unchanged earlier fields, and the name joins the name set. The invariant is preserved |
| StreamSchemas.AddWindowedField | tigon-sql/src/main/java/co/cask/tigon/sql/flowlet/StreamSchema.java:55-60 | Same errors as the two-argument overload. On success exactly one field is appended and records the given window attribute, with the earlier fields unchanged. The invariant is preserved |
| StreamSchemas.AppendPreservesValid | tigon-sql/src/main/java/co/cask/tigon/sql/flowlet/StreamSchema.java:48-59 | The name set equals the names in the list, and the names stay pairwise distinct, after every successful addField body |
| StreamSchemas.ValidCounts | tigon-sql/src/main/java/co/cask/tigon/sql/flowlet/StreamSchema.java:40-41 | Under the invariant the name set and the field list have the same size |
| StreamSchemas.Build | tigon-sql/src/main/java/co/cask/tigon/sql/flowlet/StreamSchema.java:62-64 | The schema's fields are the accumulated list in insertion order. From a valid builder its names are distinct, they are exactly the used names, and there are as many fields as names |
| Chaining.ExecAgreesWithInvoke | tigon-sql/src/main/java/co/cask/tigon/sql/flowlet/StreamSchema.java:48-60 | A statement that throws from `fieldCheck` (the only step modelled as throwing) leaves both collections unchanged and throws the error the functional call returns. A statement that does not throw leaves the object equal to the returned builder |
| Chaining.ChainIsSequential | tigon-sql/src/main/java/co/cask/tigon/sql/flowlet/StreamSchema.java:52-59 | Since addField returns the builder itself, chained calls equal separate statements on one object: same success, same final state, same exception |
| Chaining.ChainAccepts | tigon-sql/src/main/java/co/cask/tigon/sql/flowlet/StreamSchema.java:43-60 | A call sequence succeeds exactly when its names are non-null, unused and pairwise distinct. Then the earlier fields are kept and one field per call is appended in call order, recording that call's name, type and window. The name set grows by exactly the call names |
| Chaining.ChainRejects | tigon-sql/src/main/java/co/cask/tigon/sql/flowlet/StreamSchema.java:43-46 | A sequence fails at its first rejected call: an argument error for a null name, a state error for a repeated one. The object keeps exactly what the earlier calls built |
| Chaining.ChainFailureLocated | tigon-sql/src/main/java/co/cask/tigon/sql/flowlet/StreamSchema.java:43-46 | Every failing sequence has a first rejected call, and the error is the one that call's name determines |
| Chaining.ChainPreservesValid | tigon-sql/src/main/java/co/cask/tigon/sql/flowlet/StreamSchema.java:40-60 | Any successful sequence of addField calls keeps the representation invariant |
| Chaining.BuildAfterChain | tigon-sql/src/main/java/co/cask/tigon/sql/flowlet/StreamSchema.java:38-64 | From a fresh builder, calls then build succeed exactly when all names are non-null and distinct. The schema then has one field per call, in call order, with distinct names |

## Left out

- The flow runtime (topology, partitioned queues, instance lifecycle, scaling, acknowledgement, discovery) is not part of this model: none of its implementation is among the modelled files.
- `FlowOperations` (tigon-client) is an interface with no implementation, a network control plane; it is not modelled.
- `KafkaConsumerTest` is embedded ZooKeeper/Kafka test plumbing (ports, temp folders, sleeps); it is not modelled.
- `GDATFieldType`, `GDATSlidingWindowAttribute`, `DefaultGDATField` and `DefaultStreamSchema` are not part of this model. Field type and window attribute are the type parameters `T` and `W`; neither is checked by the builder, so a Java null there is just another value of `T` or `W`.
- The two-argument overload is modelled as a field with no window (`None`), because the two-argument `DefaultGDATField` constructor's implementation is outside the modelled files.
- The `DefaultGDATField` constructors and `fields.add` are assumed never to throw; only `fieldCheck` throws in this model. This matters because the name is recorded (StreamSchema.java:50 and :57) before the field is built and added (:51 and :58): a throw there would leave the name in the name set with no field, break the invariant `Valid`, and make every later call with that name fail with "Field name already used.".
- Aliasing between the builder's mutable list and the built schema is not modelled. `Build` yields the fields as a value, because `DefaultStreamSchema`, which would decide whether the list is copied, has its implementation outside the modelled files.
- Exceptions are modelled as `Result` values and not as control flow. The source throws from `Preconditions`; the model returns the same exception kind and message.
