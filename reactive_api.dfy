/**
 * The type-mapping rules of the generator that derives the reactive command
 * interfaces from the synchronous templates (`CreateReactiveApi`).
 *
 * A template method is abstracted to its name, the name of its declaring
 * interface, its printed return type and its printed parameters. A mapped
 * result type is either a fixed type name or a publisher (`Mono` or `Flux`)
 * with a type argument.
 */
module ReactiveApi {
  import opened Common
  import opened Text

  /** A method of a template interface. */
  datatype MethodDecl = MethodDecl(name: string, declaringClass: string, returnType: string, parameters: seq<string>)

  datatype Publisher = Mono | Flux

  /** The result type given to a reactive method. */
  datatype ResultType = Fixed(typeName: string) | Parametrized(base: Publisher, argument: string)

  /** `String.substring` with an end before its start. */
  datatype MutatorError = StringIndexOutOfBounds

  /** Methods whose synchronous signature the generated interface keeps. */
  const KEEP_METHOD_RESULT_TYPE: set<string> := {"digest", "close", "isOpen", "BaseRedisCommands.reset",
    "getStatefulConnection", "setAutoFlushCommands", "flushCommands"}

  /** Methods that always produce a `Flux`. */
  const FORCE_FLUX_RESULT: set<string> := {"eval", "evalsha", "evalReadOnly", "evalshaReadOnly", "fcall",
    "fcallReadOnly", "dispatch"}

  /** Methods whose element type is wrapped in `Value<...>`. */
  const VALUE_WRAP: set<string> := {"geopos", "bitfield"}

  /** Fixed result types, keyed by signature, by bare name or by `Interface.name`. */
  const RESULT_SPEC: map<string, string> := map[
    "geopos" := "Flux<Value<GeoCoordinates>>",
    "aclCat()" := "Mono<Set<AclCategory>>",
    "aclCat(AclCategory category)" := "Mono<Set<CommandType>>",
    "aclGetuser" := "Mono<List<Object>>",
    "bitfield" := "Flux<Value<Long>>",
    "hgetall" := "Flux<KeyValue<K, V>>",
    "zmscore" := "Mono<List<Double>>",
    "hgetall(KeyValueStreamingChannel<K, V> channel, K key)" := "Mono<Long>"]

  /** The static initializer: the table is filled entry by entry. */
  method InitResultSpec() returns (resultSpec: map<string, string>)
    ensures resultSpec == RESULT_SPEC
  {
    resultSpec := map[];
    resultSpec := resultSpec["geopos" := "Flux<Value<GeoCoordinates>>"];
    resultSpec := resultSpec["aclCat()" := "Mono<Set<AclCategory>>"];
    resultSpec := resultSpec["aclCat(AclCategory category)" := "Mono<Set<CommandType>>"];
    resultSpec := resultSpec["aclGetuser" := "Mono<List<Object>>"];
    resultSpec := resultSpec["bitfield" := "Flux<Value<Long>>"];
    resultSpec := resultSpec["hgetall" := "Flux<KeyValue<K, V>>"];
    resultSpec := resultSpec["zmscore" := "Mono<List<Double>>"];
    resultSpec := resultSpec["hgetall(KeyValueStreamingChannel<K, V> channel, K key)" := "Mono<Long>"];
  }

  /** Every fixed result type is itself a `Mono` or a `Flux`. */
  lemma FixedTypesArePublishers()
    ensures forall k :: k in RESULT_SPEC ==>
      StartsWith(RESULT_SPEC[k], "Mono<") || StartsWith(RESULT_SPEC[k], "Flux<")
  {
  }

  /** The printed parameters, separated by a comma and a space. */
  function JoinParameters(ps: seq<string>): (r: string)
    decreases |ps|
  {
    if |ps| == 0 then ""
    else if |ps| == 1 then ps[0]
    else JoinParameters(ps[..|ps| - 1]) + ", " + ps[|ps| - 1]
  }

  /** No parameters print as nothing; otherwise the text opens with the first and closes with the last. */
  lemma {:induction false} JoinParametersEnds(ps: seq<string>)
    ensures ps == [] ==> JoinParameters(ps) == ""
    ensures ps != [] ==> StartsWith(JoinParameters(ps), ps[0]) && EndsWith(JoinParameters(ps), ps[|ps| - 1])
    decreases |ps|
  {
    if |ps| >= 2 {
      var front := ps[..|ps| - 1];
      var last := ps[|ps| - 1];
      var init := JoinParameters(front);
      JoinParametersEnds(front);
      assert front[0] == ps[0];
      var r := init + ", " + last;
      assert JoinParameters(ps) == r;
      assert r[..|ps[0]|] == init[..|ps[0]|] == ps[0];
      assert r[|r| - |last|..] == last;
    }
  }

  lemma JoinTwoParameters(p: string, q: string)
    ensures JoinParameters([p, q]) == p + ", " + q
  {
    assert [p, q][..1] == [p];
  }

  /** Read from the front, the parameters are the first one, then ", " before each later one. */
  lemma {:induction false} JoinParametersFromFront(p: string, ps: seq<string>)
    ensures JoinParameters([p] + ps) == p + (if ps == [] then "" else ", " + JoinParameters(ps))
    decreases |ps|
  {
    if |ps| >= 2 {
      var last := ps[|ps| - 1];
      assert ([p] + ps)[..|[p] + ps| - 1] == [p] + ps[..|ps| - 1];
      JoinParametersFromFront(p, ps[..|ps| - 1]);
    } else if |ps| == 1 {
      assert ([p] + ps)[..1] == [p];
    }
  }

  /** The joined text holds every parameter and a two-character separator between neighbours. */
  lemma {:induction false} JoinParametersLength(ps: seq<string>)
    requires ps != []
    ensures |JoinParameters(ps)| == SumOfLengths(ps) + 2 * (|ps| - 1)
    decreases |ps|
  {
    if |ps| >= 2 {
      JoinParametersLength(ps[..|ps| - 1]);
      SumOfLengthsSnoc(ps[..|ps| - 1], ps[|ps| - 1]);
      assert ps[..|ps| - 1] + [ps[|ps| - 1]] == ps;
    }
  }

  function SumOfLengths(ps: seq<string>): nat
    decreases |ps|
  {
    if ps == [] then 0 else |ps[0]| + SumOfLengths(ps[1..])
  }

  lemma {:induction false} SumOfLengthsSnoc(ps: seq<string>, p: string)
    ensures SumOfLengths(ps + [p]) == SumOfLengths(ps) + |p|
    decreases |ps|
  {
    if ps != [] {
      assert (ps + [p])[1..] == ps[1..] + [p];
      SumOfLengthsSnoc(ps[1..], p);
    }
  }

  /** `nameAndParameters`, as a value: `name(p1, p2, ...)`. */
  function Signature(m: MethodDecl): (r: string)
    ensures StartsWith(r, m.name + "(") && EndsWith(r, ")")
    ensures m.parameters == [] ==> r == m.name + "()"
  {
    m.name + "(" + JoinParameters(m.parameters) + ")"
  }

  /** A method with one parameter prints it between the parentheses. */
  lemma SignatureOfOne(m: MethodDecl)
    requires |m.parameters| == 1
    ensures Signature(m) == m.name + "(" + m.parameters[0] + ")"
  {
  }

  /** The length of a signature: the name, the parentheses, and the joined parameters. */
  lemma SignatureLength(m: MethodDecl)
    ensures |Signature(m)| == |m.name| + 2 + (if m.parameters == [] then 0 else SumOfLengths(m.parameters) + 2 * (|m.parameters| - 1))
  {
    if m.parameters != [] {
      JoinParametersLength(m.parameters);
    }
  }

  /** `nameAndParameters`: the signature built in a string builder, one parameter at a time. */
  method NameAndParameters(m: MethodDecl) returns (sb: string)
    ensures sb == Signature(m)
  {
    sb := m.name;
    sb := sb + "(";
    var firstParam := true;
    for i := 0 to |m.parameters|
      invariant firstParam <==> i == 0
      invariant sb == m.name + "(" + JoinParameters(m.parameters[..i])
    {
      if firstParam {
        firstParam := false;
      } else {
        sb := sb + ", ";
      }
      assert m.parameters[..i + 1][..i] == m.parameters[..i];
      sb := sb + m.parameters[i];
    }
    assert m.parameters[..|m.parameters|] == m.parameters;
    sb := sb + ")";
  }

  /** The `Interface.name` key of a method. */
  function QualifiedName(m: MethodDecl): (r: string)
    ensures StartsWith(r, m.declaringClass) && EndsWith(r, m.name)
    ensures |r| == |m.declaringClass| + 1 + |m.name| && r[|m.declaringClass|] == '.'
    ensures r != m.name
  {
    m.declaringClass + "." + m.name
  }

  /** The value of the first of `keys` that the table holds. */
  function FirstHit(keys: seq<string>, table: map<string, string>): Option<string>
    decreases |keys|
  {
    if keys == [] then None
    else if keys[0] in table then Some(table[keys[0]])
    else FirstHit(keys[1..], table)
  }

  /** `keys[i]` is the earliest of `keys` that the table holds. */
  predicate EarliestHit(keys: seq<string>, table: map<string, string>, i: int) {
    0 <= i < |keys| && keys[i] in table && forall j :: 0 <= j < i ==> keys[j] !in table
  }

  /** `FirstHit` finds the earliest key held, and finds nothing only if no key is held. */
  lemma {:induction false} FirstHitIsEarliest(keys: seq<string>, table: map<string, string>)
    ensures FirstHit(keys, table).None? <==> forall i :: 0 <= i < |keys| ==> keys[i] !in table
    ensures FirstHit(keys, table).Some? ==>
      exists i :: EarliestHit(keys, table, i) && FirstHit(keys, table) == Some(table[keys[i]])
    decreases |keys|
  {
    if keys != [] {
      if keys[0] in table {
        assert EarliestHit(keys, table, 0);
      } else {
        FirstHitIsEarliest(keys[1..], table);
        if FirstHit(keys, table).Some? {
          var i :| EarliestHit(keys[1..], table, i) && FirstHit(keys[1..], table) == Some(table[keys[1..][i]]);
          assert EarliestHit(keys, table, i + 1);
        }
      }
    }
  }

  /**
   * `getResultType`: the fixed result type, looked up by signature, then by
   * bare name, then by `Interface.name`; an earlier key shadows a later one.
   */
  function GetResultType(m: MethodDecl): (r: Option<string>)
    ensures r == FirstHit([Signature(m), m.name, QualifiedName(m)], RESULT_SPEC)
    ensures r.Some? ==> r.value in RESULT_SPEC.Values
  {
    var declaration := Signature(m);
    assert [Signature(m), m.name, QualifiedName(m)][1..] == [m.name, QualifiedName(m)];
    assert [m.name, QualifiedName(m)][1..] == [QualifiedName(m)];
    assert [QualifiedName(m)][1..] == [];
    assert FirstHit([], RESULT_SPEC) == None;
    assert FirstHit([QualifiedName(m)], RESULT_SPEC)
      == if QualifiedName(m) in RESULT_SPEC then Some(RESULT_SPEC[QualifiedName(m)]) else None;
    if declaration in RESULT_SPEC then Some(RESULT_SPEC[declaration])
    else if m.name in RESULT_SPEC then Some(RESULT_SPEC[m.name])
    else
      var key := QualifiedName(m);
      if key in RESULT_SPEC then Some(RESULT_SPEC[key]) else None
  }

  /**
   * Membership of a method in one of the name sets: its bare name or its
   * `Interface.name` key is listed.
   */
  predicate IsListed(names: set<string>, m: MethodDecl) {
    m.name in names || QualifiedName(m) in names
  }

  /** For a set without qualified entries, membership is membership of the bare name. */
  lemma ListedByBareName(names: set<string>, m: MethodDecl)
    requires forall w :: w in names ==> '.' !in w
    ensures IsListed(names, m) <==> m.name in names
  {
    assert QualifiedName(m)[|m.declaringClass|] == '.';
  }

  /** `String.format("Value<%s>", a)` for the methods of `VALUE_WRAP`. */
  function WrapValue(m: MethodDecl, a: string): (r: string)
    ensures IsListed(VALUE_WRAP, m) ==>
      |r| == |a| + 7 && StartsWith(r, "Value<") && EndsWith(r, ">") && r[6..|r| - 1] == a
    ensures !IsListed(VALUE_WRAP, m) ==> r == a
  {
    if IsListed(VALUE_WRAP, m) then "Value<" + a + ">" else a
  }

  /**
   * Every method of `VALUE_WRAP` has a fixed result type, so the `Value<...>`
   * wrap never applies with the present tables.
   */
  lemma ValueWrapIsShadowed(m: MethodDecl)
    requires IsListed(VALUE_WRAP, m)
    ensures GetResultType(m).Some?
  {
    ListedByBareName(VALUE_WRAP, m);
    assert m.name in RESULT_SPEC;
    if Signature(m) !in RESULT_SPEC {
      FixedByName(m);
    }
  }

  /**
   * `methodTypeMutator`: a fixed result type wins; otherwise `FORCE_FLUX_RESULT`
   * gives a `Flux` of the return type, a `List<...>` or `Set<...>` gives a
   * `Flux` of its element type, and anything else a `Mono` of the return
   * type; the methods of `VALUE_WRAP` then have their argument wrapped. A
   * return type of exactly `List<` or `Set<` makes the substring fail.
   */
  function MethodTypeMutator(m: MethodDecl): (r: Result<ResultType, MutatorError>)
    ensures GetResultType(m).Some? ==> r == Ok(Fixed(GetResultType(m).value))
    ensures GetResultType(m).None? ==> !(r.Ok? && r.value.Fixed?)
  {
    var typeArgument := Trim(m.returnType);
    match GetResultType(m)
    case Some(fixedResultType) => Ok(Fixed(fixedResultType))
    case None =>
      if IsListed(FORCE_FLUX_RESULT, m) then
        Ok(Parametrized(Flux, WrapValue(m, typeArgument)))
      else if StartsWith(typeArgument, "List<") then
        if |typeArgument| - 1 < 5 then Err(StringIndexOutOfBounds)
        else Ok(Parametrized(Flux, WrapValue(m, typeArgument[5..|typeArgument| - 1])))
      else if StartsWith(typeArgument, "Set<") then
        if |typeArgument| - 1 < 4 then Err(StringIndexOutOfBounds)
        else Ok(Parametrized(Flux, WrapValue(m, typeArgument[4..|typeArgument| - 1])))
      else
        Ok(Parametrized(Mono, WrapValue(m, typeArgument)))
  }

  /** The first tier: a method whose signature is a key gets that entry. */
  lemma FixedBySignature(m: MethodDecl)
    requires Signature(m) in RESULT_SPEC
    ensures MethodTypeMutator(m) == Ok(Fixed(RESULT_SPEC[Signature(m)]))
  {
  }

  /** The second tier: otherwise a method whose bare name is a key gets that entry. */
  lemma FixedByName(m: MethodDecl)
    requires Signature(m) !in RESULT_SPEC && m.name in RESULT_SPEC
    ensures MethodTypeMutator(m) == Ok(Fixed(RESULT_SPEC[m.name]))
  {
  }

  /** No key of the table holds a dot. */
  lemma KeysUndotted()
    ensures forall k :: k in RESULT_SPEC ==> '.' !in k
  {
    KeySet();
    ShortKeysUndotted();
    LongKeysUndotted();
  }

  /**
   * The third tier never fires with this table: an `Interface.name` key holds
   * a dot and no key does, so a method whose signature and bare name are not
   * keys has no fixed type.
   */
  lemma QualifiedTierIsDead(m: MethodDecl)
    ensures QualifiedName(m) !in RESULT_SPEC
    ensures Signature(m) !in RESULT_SPEC && m.name !in RESULT_SPEC ==> GetResultType(m).None?
  {
    KeysUndotted();
    assert QualifiedName(m)[|m.declaringClass|] == '.';
  }

  /** The substring fails only on a bare `List<` or `Set<` that no earlier rule catches. */
  lemma MutatorFailsOnlyOnBareCollection(m: MethodDecl)
    ensures MethodTypeMutator(m).Err? <==>
      (&& GetResultType(m).None?
       && !IsListed(FORCE_FLUX_RESULT, m)
       && (Trim(m.returnType) == "List<" || Trim(m.returnType) == "Set<"))
  {
  }

  /** Without a fixed type the publisher is a `Flux` exactly for forced methods and collections. */
  lemma MutatorPicksFlux(m: MethodDecl)
    requires MethodTypeMutator(m).Ok? && MethodTypeMutator(m).value.Parametrized?
    ensures MethodTypeMutator(m).value.base == Flux <==>
      (|| IsListed(FORCE_FLUX_RESULT, m)
       || StartsWith(Trim(m.returnType), "List<")
       || StartsWith(Trim(m.returnType), "Set<"))
  {
  }

  /** A method of `VALUE_WRAP` always gets its fixed result type. */
  lemma ValueWrapMethodsAreFixed(m: MethodDecl)
    requires IsListed(VALUE_WRAP, m)
    ensures MethodTypeMutator(m).Ok? && MethodTypeMutator(m).value.Fixed?
  {
    ValueWrapIsShadowed(m);
  }

  /** Without a fixed type, a method is not in `VALUE_WRAP`, so no `Value<...>` wrap applies. */
  lemma UnfixedIsNotWrapped(m: MethodDecl)
    requires GetResultType(m).None?
    ensures !IsListed(VALUE_WRAP, m)
  {
    if IsListed(VALUE_WRAP, m) {
      ValueWrapIsShadowed(m);
    }
  }

  /** A `List<...>` return type gives a `Flux` of what lies between `List<` and the last character. */
  lemma ListElementType(m: MethodDecl)
    requires GetResultType(m).None? && !IsListed(FORCE_FLUX_RESULT, m)
    requires StartsWith(Trim(m.returnType), "List<") && |Trim(m.returnType)| >= 6
    ensures var t := Trim(m.returnType); MethodTypeMutator(m) == Ok(Parametrized(Flux, t[5..|t| - 1]))
  {
    UnfixedIsNotWrapped(m);
  }

  /** A `Set<...>` return type gives a `Flux` of what lies between `Set<` and the last character. */
  lemma SetElementType(m: MethodDecl)
    requires GetResultType(m).None? && !IsListed(FORCE_FLUX_RESULT, m)
    requires StartsWith(Trim(m.returnType), "Set<") && |Trim(m.returnType)| >= 5
    ensures var t := Trim(m.returnType); MethodTypeMutator(m) == Ok(Parametrized(Flux, t[4..|t| - 1]))
  {
    UnfixedIsNotWrapped(m);
    var t := Trim(m.returnType);
    assert t[0] == 'S';
  }

  /** For `List<x>` in particular the element type x comes back whole. */
  lemma ListOfElement(m: MethodDecl, x: string)
    requires GetResultType(m).None? && !IsListed(FORCE_FLUX_RESULT, m)
    requires Trim(m.returnType) == "List<" + x + ">"
    ensures MethodTypeMutator(m) == Ok(Parametrized(Flux, x))
  {
    var t := Trim(m.returnType);
    assert t[..5] == "List<";
    assert t[5..|t| - 1] == x;
    ListElementType(m);
  }

  /** For `Set<x>` likewise. */
  lemma SetOfElement(m: MethodDecl, x: string)
    requires GetResultType(m).None? && !IsListed(FORCE_FLUX_RESULT, m)
    requires Trim(m.returnType) == "Set<" + x + ">"
    ensures MethodTypeMutator(m) == Ok(Parametrized(Flux, x))
  {
    var t := Trim(m.returnType);
    assert t[..4] == "Set<";
    assert t[4..|t| - 1] == x;
    SetElementType(m);
  }

  /** A forced `Flux` keeps the trimmed return type as its argument, collections included. */
  lemma ForcedFluxKeepsReturnType(m: MethodDecl)
    requires GetResultType(m).None? && IsListed(FORCE_FLUX_RESULT, m)
    ensures MethodTypeMutator(m) == Ok(Parametrized(Flux, Trim(m.returnType)))
  {
    ListedByBareName(FORCE_FLUX_RESULT, m);
    ListedByBareName(VALUE_WRAP, m);
  }

  /** Any other return type becomes the argument of a `Mono`, unchanged but trimmed. */
  lemma MonoKeepsReturnType(m: MethodDecl)
    requires GetResultType(m).None? && !IsListed(FORCE_FLUX_RESULT, m)
    requires !StartsWith(Trim(m.returnType), "List<") && !StartsWith(Trim(m.returnType), "Set<")
    ensures MethodTypeMutator(m) == Ok(Parametrized(Mono, Trim(m.returnType)))
  {
    UnfixedIsNotWrapped(m);
  }

  // ---------------------------------------------------------------------------
  // Proof helpers: facts about the literal keys of the table
  // ---------------------------------------------------------------------------

  /** The keys of the table. */
  lemma KeySet()
    ensures RESULT_SPEC.Keys == {"geopos", "aclCat()", "aclCat(AclCategory category)", "aclGetuser", "bitfield",
      "hgetall", "zmscore", "hgetall(KeyValueStreamingChannel<K, V> channel, K key)"}
  {
  }

  /** The short keys hold no dot. */
  lemma ShortKeysUndotted()
    ensures forall k :: k in {"geopos", "aclCat()", "aclGetuser", "bitfield", "hgetall", "zmscore"} ==> '.' !in k
  {
  }

  /** The two long keys hold no dot. */
  lemma LongKeysUndotted()
    ensures '.' !in "aclCat(AclCategory category)"
    ensures '.' !in "hgetall(KeyValueStreamingChannel<K, V> channel, K key)"
  {
    AclCatKeyUndotted();
    StreamingKeyUndotted();
  }

  /** `aclCat(AclCategory category)`, piece by piece, holds no dot. */
  lemma AclCatKeyUndotted()
    ensures '.' !in "aclCat(AclCategory category)"
  {
    var a, b, c := "aclCat(", "AclCategory", " category)";
    assert '.' !in a && '.' !in b && '.' !in c;
    assert a + b + c == "aclCat(AclCategory category)";
  }

  /** The streaming `hgetall` key, in two halves, holds no dot. */
  lemma StreamingKeyUndotted()
    ensures '.' !in "hgetall(KeyValueStreamingChannel<K, V> channel, K key)"
  {
    StreamingKeyFront();
    StreamingKeyBack();
    assert "hgetall(KeyValueStreamingChannel<K, V> channel, K key)"
      == "hgetall(KeyValueStreamingChannel" + "<K, V> channel, K key)";
  }

  /** The first half of the streaming key. */
  lemma StreamingKeyFront()
    ensures '.' !in "hgetall(KeyValueStreamingChannel"
  {
    var a, b := "hgetall(KeyValue", "StreamingChannel";
    assert '.' !in a && '.' !in b;
    assert a + b == "hgetall(KeyValueStreamingChannel";
  }

  /** The second half of the streaming key. */
  lemma StreamingKeyBack()
    ensures '.' !in "<K, V> channel, K key)"
  {
    var a, b := "<K, V> channel", ", K key)";
    assert '.' !in a && '.' !in b;
    assert a + b == "<K, V> channel, K key)";
  }
}
