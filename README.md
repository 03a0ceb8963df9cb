# Registries and the `$merge` stage of the MongoDB C# driver, in Dafny

This project models three sequential components of the MongoDB C# driver and proves what they promise.

- **Convention registry** (`Conventions`, `conventions.dfy`). A serialization domain keeps an ordered list of named convention-pack containers. Each container has a filter on types. `Register` appends a container and `Remove` deletes every container with a given name. `Lookup(type)` collects the packs of every container whose filter accepts the type, in registration order, except that packs named `__attributes__` go last. The class `ConventionRegistryDomain` holds the list as a `seq` field. `Lookup` keeps the source's two loops and is proved against the function `EffectivePacks`.
- **Class-map registry** (`Serialization`, `serialization.dfy`). A serialization domain keeps a dictionary from a type to its class map. Registration never replaces an entry. `TryRegisterClassMap` inserts only if the type is absent. `LookupClassMap` always returns a frozen class map, and auto-maps and registers the type when it is missing. The class `BsonClassMapDomain` holds the dictionary as a `map` field. Each method is tied to a pure transition function (`Added`, `TryAdded`, `LookedUp`), and the lemmas are stated about those functions.
- **`$merge` stage renderer** (`Stages`, `stages.dfy`). An immutable AST node is rendered to a BSON document. `ParseMerge` reads a rendered document back. The two are proved inverse in both directions. That fixes everything `Render` emits: the single `$merge` key, the shape of `into` and `on`, which optional keys appear and in what order, and the enum names.

Shared wrappers are in `wrappers.dfy`. A C# `null` argument becomes `Option.None`. A thrown exception becomes a `Failure`/`Fail` value carrying an `Errors.Error`.

## Model

| member | source | states |
|---|---|---|
| `Conventions.ConventionRegistryDomain.constructor` | src/MongoDB.Bson/Serialization/Conventions/ConventionRegistryDomain.cs:12-16 | A fresh registry holds exactly `__defaults__` and then `__attributes__`, both with the accept-all filter. It is built by two calls to `Register`. |
| `Conventions.InitialLookup` | src/MongoDB.Bson/Serialization/Conventions/ConventionRegistryDomain.cs:12-16 | Both initial filters accept every type. A lookup on a fresh registry yields the default pack, then the attribute pack. |
| `Conventions.ConventionRegistryDomain.Lookup` | src/MongoDB.Bson/Serialization/Conventions/ConventionRegistryDomain.cs:24-60 | A null type fails with `ArgumentNull("type")`. Otherwise the two loops return exactly `EffectivePacks(containers, t)`. The method has no `modifies` clause, so the registry is not changed. |
| `Conventions.ConventionRegistryDomain.Register` | src/MongoDB.Bson/Serialization/Conventions/ConventionRegistryDomain.cs:68-96 | A null name, pack or filter fails with the matching `ArgumentNull`, checked in that order, and the list is unchanged. Otherwise exactly one container is appended at the end and the earlier list is kept as it was. |
| `Conventions.ConventionRegistryDomain.Remove` | src/MongoDB.Bson/Serialization/Conventions/ConventionRegistryDomain.cs:105-116 | A null name fails and changes nothing. Otherwise the list becomes `WithoutName(old list, name)`, whose properties are proved by the `Remove*` lemmas. |
| `Conventions.Matching` | src/MongoDB.Bson/Serialization/Conventions/ConventionRegistryDomain.cs:37-51 | One group of the scan: the containers whose filter accepts the type and whose name is, or is not, `__attributes__`, in registration order. It is never longer than the registered list. Its contents are stated by `MatchingMultiplicity`, `MatchingElements` and `MatchingIsSubsequence`. |
| `Conventions.EffectivePacks` | src/MongoDB.Bson/Serialization/Conventions/ConventionRegistryDomain.cs:37-56 | The reference the `Lookup` loops are proved against: the packs of the non-attribute group, then those of the attribute group. It uses each registered container at most once, so it is never longer than the list. |
| `Conventions.SelectedShorter` | src/MongoDB.Bson/Serialization/Conventions/ConventionRegistryDomain.cs:37-56 | No container falls into both groups, so a lookup selects at most as many containers as are registered. |
| `Conventions.WithoutName` | src/MongoDB.Bson/Serialization/Conventions/ConventionRegistryDomain.cs:114 | `RemoveAll` for a name: the list without that name's containers. It is never longer than the original. Its contents are stated by the `Remove*` lemmas. |
| `Conventions.MatchingMultiplicity` | src/MongoDB.Bson/Serialization/Conventions/ConventionRegistryDomain.cs:37-51 | A container occurs in one group of the scan exactly as often as it is registered if its filter accepts the type and its name belongs to that group. Otherwise it does not occur. |
| `Conventions.MatchingElements` | src/MongoDB.Bson/Serialization/Conventions/ConventionRegistryDomain.cs:37-51 | Every container in a group is registered, accepts the type, and has that group's name status. |
| `Conventions.MatchingIsSubsequence` | src/MongoDB.Bson/Serialization/Conventions/ConventionRegistryDomain.cs:37-51 | Each group keeps registration order: it is a subsequence of the registered list. |
| `Conventions.LookupSelectsExactlyMatching` | src/MongoDB.Bson/Serialization/Conventions/ConventionRegistryDomain.cs:37-56 | A lookup uses exactly the containers whose filter accepts the type, and each as many times as it is registered. This holds in both directions. |
| `Conventions.LookupPacksExactlyMatching` | src/MongoDB.Bson/Serialization/Conventions/ConventionRegistryDomain.cs:37-56 | A pack is in the lookup result iff some registered container holds it and accepts the type. |
| `Conventions.LookupAttributesLast` | src/MongoDB.Bson/Serialization/Conventions/ConventionRegistryDomain.cs:35-56 | Every container not named `__attributes__` comes before every container so named. Each of the two groups keeps registration order. |
| `Conventions.LookupAfterRegister` | src/MongoDB.Bson/Serialization/Conventions/ConventionRegistryDomain.cs:35-56 | Registering one container changes a later lookup only by its pack. If the filter rejects the type, nothing changes. If the container is named `__attributes__`, its pack goes at the very end. Otherwise its pack goes after the other non-attribute packs and before the attribute packs. |
| `Conventions.RemoveLeavesNoneNamed` | src/MongoDB.Bson/Serialization/Conventions/ConventionRegistryDomain.cs:114 | After removal, no container with that name is left. |
| `Conventions.RemoveMultiplicity` | src/MongoDB.Bson/Serialization/Conventions/ConventionRegistryDomain.cs:114 | Every container with another name stays, as many times as it was registered. |
| `Conventions.RemoveKeepsOrder` | src/MongoDB.Bson/Serialization/Conventions/ConventionRegistryDomain.cs:114 | The remaining containers keep their relative order: they form a subsequence of the old list. |
| `Conventions.RemoveAbsentIsNoOp` | src/MongoDB.Bson/Serialization/Conventions/ConventionRegistryDomain.cs:114 | Removing a name that no container has changes nothing. |
| `Conventions.RemoveIdempotent` | src/MongoDB.Bson/Serialization/Conventions/ConventionRegistryDomain.cs:105-116 | Removing a name twice has the same effect as removing it once. |
| `Conventions.LookupWithoutAttributes` | src/MongoDB.Bson/Serialization/Conventions/ConventionRegistryDomain.cs:102-104 | After `__attributes__` has been removed, a lookup follows registration order alone. |
| `Serialization.Freeze` | src/MongoDB.Bson/Serialization/BsonClassMapDomain.cs:103 | Freezing marks a class map frozen and keeps its type and identity. |
| `Serialization.Added` | src/MongoDB.Bson/Serialization/BsonClassMapDomain.cs:148-149 | `Dictionary.Add` fails with a duplicate-key error iff the type is already a key. On success it adds exactly that entry and leaves every other entry unchanged. |
| `Serialization.LookedUp` | src/MongoDB.Bson/Serialization/BsonClassMapDomain.cs:64-109 | Lookup returns a frozen class map for the type. Afterwards the type is registered with exactly that map, and other entries are unchanged. The map is the registered object if there was one, otherwise the auto-mapped one. |
| `Serialization.TryAdded` | src/MongoDB.Bson/Serialization/BsonClassMapDomain.cs:223-262 | Insert-if-absent. It fails with `ArgumentNull("classMap")` iff the type is absent and the factory returns a null class map, which `RegisterClassMap` rejects at lines 140-143. Otherwise it reports true iff the type was absent. When it reports false the map is unchanged. When it reports true the new map is `Dictionary.Add` of the factory's class map. The factory's precondition is needed only when the type is absent. |
| `Serialization.NonNull` | src/MongoDB.Bson/Serialization/BsonClassMapDomain.cs:163-215 | The factories the overloads build never return null: the lifted factory returns exactly the class map the original builds. |
| `Serialization.BsonClassMapDomain.constructor` | src/MongoDB.Bson/Serialization/BsonClassMapDomain.cs:12-17 | A new domain registers no class maps. |
| `Serialization.BsonClassMapDomain.GetRegisteredClassMaps` | src/MongoDB.Bson/Serialization/BsonClassMapDomain.cs:23-34 | It returns a new list with every registered class map exactly once, no duplicates, and the same count as the dictionary. It does not change state. |
| `Serialization.BsonClassMapDomain.IsClassMapRegistered` | src/MongoDB.Bson/Serialization/BsonClassMapDomain.cs:41-57 | A null type fails. Otherwise the result is true iff the type is a key. |
| `Serialization.BsonClassMapDomain.LookupClassMap` | src/MongoDB.Bson/Serialization/BsonClassMapDomain.cs:64-109 | A null type fails and changes nothing. Otherwise the result and the new state are those of `LookedUp`. The entries stay keyed by their own type. |
| `Serialization.BsonClassMapDomain.RegisterClassMap` | src/MongoDB.Bson/Serialization/BsonClassMapDomain.cs:138-156 | A null map fails. A type that is already registered fails and its existing map is kept. Otherwise exactly the new entry is added. |
| `Serialization.BsonClassMapDomain.RegisterNewClassMap` | src/MongoDB.Bson/Serialization/BsonClassMapDomain.cs:116-132 | It registers the newly built class map as `RegisterClassMap` does and returns that map. |
| `Serialization.BsonClassMapDomain.TryRegisterClassMap` | src/MongoDB.Bson/Serialization/BsonClassMapDomain.cs:223-262 | A null factory fails with `ArgumentNull("classMapFactory")`. Otherwise the result is that of `TryAdded`, and so is the new state on success. If `TryAdded` fails because the factory returned null, the failure propagates and the registry is unchanged. The factory is called only when the type is absent. |
| `Serialization.BsonClassMapDomain.TryRegisterAutoMappedClassMap` | src/MongoDB.Bson/Serialization/BsonClassMapDomain.cs:163-173 | Reduces to the factory overload with the auto-mapping factory, which never returns null. So it always succeeds, with the result and new state of `TryAdded`. |
| `Serialization.BsonClassMapDomain.TryRegisterGivenClassMap` | src/MongoDB.Bson/Serialization/BsonClassMapDomain.cs:181-194 | A null class map fails with `ArgumentNull("classMap")`. Otherwise it reduces to the factory overload with a factory that returns the given map, and it succeeds with the result and new state of `TryAdded`. |
| `Serialization.BsonClassMapDomain.TryRegisterInitializedClassMap` | src/MongoDB.Bson/Serialization/BsonClassMapDomain.cs:202-215 | A null initializer fails with `ArgumentNull("classMapInitializer")`. Otherwise it reduces to the factory overload and succeeds with the result and new state of `TryAdded`. The initializer runs only when the type is absent. |
| `Serialization.LookupIsStable` | src/MongoDB.Bson/Serialization/BsonClassMapDomain.cs:74-103 | A second lookup changes nothing and returns the same class map, whatever it would auto-map. |
| `Serialization.LookupOfRegistered` | src/MongoDB.Bson/Serialization/BsonClassMapDomain.cs:74-103 | Looking up a registered type returns that map frozen and adds no entry. If the map was already frozen, the registry is unchanged. |
| `Serialization.LookupReturnsRegistered` | src/MongoDB.Bson/Serialization/BsonClassMapDomain.cs:97-103 | After a class map is registered, a lookup of its type returns that map, frozen. |
| `Serialization.RegisterNeverReplaces` | src/MongoDB.Bson/Serialization/BsonClassMapDomain.cs:148-149 | A second registration of the same type fails with a duplicate-key error, and the first map stays. |
| `Serialization.TryRegisterTwice` | src/MongoDB.Bson/Serialization/BsonClassMapDomain.cs:230-249 | After an insert-if-absent that succeeds, a second one for the same type reports false and changes nothing. |
| `Stages.NewMergeStage` | src/MongoDB.Driver/Linq/Linq3Implementation/Ast/Stages/AstMergeStage.cs:51-65 | Construction fails with `ArgumentNull("intoCollection")` iff the collection is null. Otherwise every field holds its argument. |
| `Stages.Update` | src/MongoDB.Driver/Linq/Linq3Implementation/Ast/Stages/AstMergeStage.cs:96-104 | With the current bindings it returns the same node. Otherwise only `let` differs. |
| `Stages.WhenMatchedName` | src/MongoDB.Driver/Linq/Linq3Implementation/Ast/Stages/AstMergeStage.cs:126-137 | Every `whenMatched` value renders as one of `fail`, `keepExisting`, `merge`, `pipeline`, `replace`. |
| `Stages.WhenNotMatchedName` | src/MongoDB.Driver/Linq/Linq3Implementation/Ast/Stages/AstMergeStage.cs:139-148 | Every `whenNotMatched` value renders as one of `discard`, `fail`, `insert`. |
| `Stages.WhenMatchedNamesInjective` | src/MongoDB.Driver/Linq/Linq3Implementation/Ast/Stages/AstMergeStage.cs:126-137 | The `whenMatched` names are pairwise distinct, and each reads back as its value. |
| `Stages.WhenNotMatchedNamesInjective` | src/MongoDB.Driver/Linq/Linq3Implementation/Ast/Stages/AstMergeStage.cs:139-148 | The `whenNotMatched` names are pairwise distinct, and each reads back as its value. |
| `Stages.RenderInto` | src/MongoDB.Driver/Linq/Linq3Implementation/Ast/Stages/AstMergeStage.cs:106-112 | `into` is a string iff no database is given. It reads back as the database and collection it was rendered from. |
| `Stages.RenderOn` | src/MongoDB.Driver/Linq/Linq3Implementation/Ast/Stages/AstMergeStage.cs:119-124 | `on` is a string iff there is exactly one field. Otherwise it is an array of the fields as strings, in order. |
| `Stages.RenderLet` | src/MongoDB.Driver/Linq/Linq3Implementation/Ast/Stages/AstMergeStage.cs:114-117 | `let` is a document with one element per binding, named after the binding, in binding order. |
| `Stages.OptionalElement` | src/MongoDB.Driver/Linq/Linq3Implementation/Ast/Stages/AstMergeStage.cs:87-90 | An optional element: exactly one element, under its key, when the field is set, and none otherwise. |
| `Stages.MergeElements` | src/MongoDB.Driver/Linq/Linq3Implementation/Ast/Stages/AstMergeStage.cs:84-91 | The `$merge` document has between one and five elements. The first is `into`, and it reads back as the target. |
| `Stages.Render` | src/MongoDB.Driver/Linq/Linq3Implementation/Ast/Stages/AstMergeStage.cs:80-94 | The rendering is a document whose single key is `$merge`. |
| `Stages.IntoRoundTrip` | src/MongoDB.Driver/Linq/Linq3Implementation/Ast/Stages/AstMergeStage.cs:106-112 | `into` renders as the bare collection string when there is no database. Otherwise it renders as the document `{db, coll}`, in that key order. In both cases exactly the rendered forms read back, as the pair they came from. |
| `Stages.OnRoundTrip` | src/MongoDB.Driver/Linq/Linq3Implementation/Ast/Stages/AstMergeStage.cs:119-124 | One `on` field renders as that string. Any other number of fields, zero included, renders as an array of the same fields in the same order. Either form reads back as the original list. |
| `Stages.OnParsedRenders` | src/MongoDB.Driver/Linq/Linq3Implementation/Ast/Stages/AstMergeStage.cs:119-124 | Every `on` value that is accepted back is the rendering of the list it yields. |
| `Stages.LetRoundTrip` | src/MongoDB.Driver/Linq/Linq3Implementation/Ast/Stages/AstMergeStage.cs:114-117 | The `let` document holds one element per binding, in order, and reads back as the bindings. |
| `Stages.OptionalsRoundTrip` | src/MongoDB.Driver/Linq/Linq3Implementation/Ast/Stages/AstMergeStage.cs:87-90 | The optional elements read back field by field, each only when its field is set. |
| `Stages.ParseRender` | src/MongoDB.Driver/Linq/Linq3Implementation/Ast/Stages/AstMergeStage.cs:80-124 | Every stage reads back from its rendering. This includes `into` as a bare string when there is no database and as `{db, coll}` when there is one. |
| `Stages.RenderParse` | src/MongoDB.Driver/Linq/Linq3Implementation/Ast/Stages/AstMergeStage.cs:80-124 | Every document that reads back as a stage is exactly that stage's rendering. |
| `Stages.RenderIsInjective` | src/MongoDB.Driver/Linq/Linq3Implementation/Ast/Stages/AstMergeStage.cs:80-124 | A document is the rendering of a stage iff it reads back as that stage. So rendering is injective. |
| `Stages.RenderKeyOrder` | src/MongoDB.Driver/Linq/Linq3Implementation/Ast/Stages/AstMergeStage.cs:86-90 | The inner keys start with `into`. Each of `on`, `let`, `whenMatched` and `whenNotMatched` is present iff its field is set. The keys are in that order, each at most once. |

## Left out

- Cluster discovery, server monitoring, server selection and connection pooling are not part of this model. `src/MongoDB.Driver/Core/ConnectionPools/IConnectionPool.cs` only declares an interface and has no behaviour.
- Locking: the `lock (_lock)` in the convention registry and the `ConfigLock` read/write locks in the class-map registry are modelled as atomic sequential operations. Under that model, the repeated `ContainsKey` in `TryRegisterClassMap` (lines 233 and 246) reduces to a single check, because the second check only matters when another thread registers the type between the two locks. `LookupClassMap` keeps both of its checks, because they test different things. The first one returns a registered map that is already frozen. The second one tells a registered but unfrozen map, which is frozen in place, from an absent type, which gets the auto-mapped map.
- `BsonSerializer.RegisterDiscriminator`, called by `RegisterClassMap` after the dictionary insert, is a call into the global serializer and is not modelled.
- `AutoMap`, `Activator.CreateInstance`, the `BsonClassMap` constructors and the internals of `Freeze` are opaque. Their results come in as parameters (`autoMapped`, `created`) or as factories (`() --> ClassMap<T>`). `Freeze` only sets the frozen flag. It does not freeze base-class maps or any member maps.
- Object identity: a class map carries an `id` that stands for its reference. Freezing the registered object is modelled as replacing the entry with its frozen copy, which has the same `id`.
- Stages.Update: does not model that the source compares the bindings by reference and returns `this`. On values, "the same node" and "an equal copy" cannot be told apart.
- A C# generic type argument `TClass` becomes an explicit type `t`. The requirement that a factory or initializer builds a class map whose type is `TClass` is a precondition, because C# guarantees it by typing.
- Conventions.ConventionRegistryDomain.Lookup: returns the sequence of packs that the effective `ConventionPack` appends, not the appended conventions themselves. `ConventionPack.Append` is not part of this model.
- Filters are total functions. A filter that throws is not modelled.
- Serialization.BsonClassMapDomain.TryRegisterClassMap: a factory that throws is not modelled; a factory is a total function on its precondition. In the source the exception would propagate and leave the dictionary unchanged. A factory that returns null is modelled.
- `AstVarBinding.RenderAsElement` is opaque. A binding carries the element name and the value it renders as.
- The `default: throw InvalidOperationException` branches of `RenderWhenMatched` and `RenderWhenNotMatched` run only for enum values outside the declared members. Such values do not exist for a Dafny datatype.
- BSON documents are modelled as element sequences. `BsonDocument`'s check for duplicate element names, and null strings inside `on`, are not modelled.
- `Accept(visitor)` and `NodeType` belong to the visitor framework, which is not part of this model.
