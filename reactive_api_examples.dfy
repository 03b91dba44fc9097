/**
 * The result-type table of `CreateReactiveApi` at work on methods of the
 * command templates.
 */
module ReactiveApiExamples {
  import opened Common
  import opened ReactiveApi

  /** A method whose signature is no key, by its length alone, is looked up by its bare name. */
  lemma FixedByNameForUnlistedLength(m: MethodDecl)
    requires m.name in RESULT_SPEC
    requires var n := |Signature(m)|; n != 6 && n != 7 && n != 8 && n != 10 && n != 28 && n != 54
    ensures MethodTypeMutator(m) == Ok(Fixed(RESULT_SPEC[m.name]))
  {
    KeyLengths();
    FixedByName(m);
  }

  /** The table at work: a method named in it gets the listed type whatever it returns. */
  lemma GeoposIsFixed()
    ensures MethodTypeMutator(MethodDecl("geopos", "RedisGeoCommands", "List<GeoCoordinates>", ["K key", "V... members"]))
      == Ok(Fixed("Flux<Value<GeoCoordinates>>"))
  {
    GeoposSignatureLength();
    GeoposEntry();
    FixedByNameForUnlistedLength(MethodDecl("geopos", "RedisGeoCommands", "List<GeoCoordinates>", ["K key", "V... members"]));
  }

  /** `aclCat()` is found by its signature, which has no parameters. */
  lemma AclCatWithoutCategory()
    ensures MethodTypeMutator(MethodDecl("aclCat", "RedisAclCommands", "Set<AclCategory>", []))
      == Ok(Fixed("Mono<Set<AclCategory>>"))
  {
    var m := MethodDecl("aclCat", "RedisAclCommands", "Set<AclCategory>", []);
    assert "aclCat" + "()" == "aclCat()";
    FixedBySignature(m);
  }

  /** `aclCat(AclCategory category)` is told apart from `aclCat()` by its signature. */
  lemma AclCatWithCategory()
    ensures MethodTypeMutator(MethodDecl("aclCat", "RedisAclCommands", "Set<CommandType>", ["AclCategory category"]))
      == Ok(Fixed("Mono<Set<CommandType>>"))
  {
    var m := MethodDecl("aclCat", "RedisAclCommands", "Set<CommandType>", ["AclCategory category"]);
    SignatureOfOne(m);
    AclCatKey();
    FixedBySignature(m);
  }

  /** The signature of the streaming `hgetall` is its key in the table. */
  lemma StreamingHgetallKey()
    ensures Signature(MethodDecl("hgetall", "RedisHashCommands", "Long", ["KeyValueStreamingChannel<K, V> channel", "K key"]))
      == "hgetall(KeyValueStreamingChannel<K, V> channel, K key)"
  {
    JoinTwoParameters("KeyValueStreamingChannel<K, V> channel", "K key");
    StreamingParameter();
    StreamingKeyPrefix();
    StreamingKeySuffix();
  }

  /** The streaming `hgetall` signature shadows the entry for the bare name. */
  lemma HgetallSignatureShadowsName()
    ensures MethodTypeMutator(MethodDecl("hgetall", "RedisHashCommands", "Long",
        ["KeyValueStreamingChannel<K, V> channel", "K key"])) == Ok(Fixed("Mono<Long>"))
    ensures MethodTypeMutator(MethodDecl("hgetall", "RedisHashCommands", "Map<K, V>", ["K key"]))
      == Ok(Fixed("Flux<KeyValue<K, V>>"))
  {
    StreamingHgetallKey();
    HgetallEntries();
    FixedBySignature(MethodDecl("hgetall", "RedisHashCommands", "Long", ["KeyValueStreamingChannel<K, V> channel", "K key"]));
    HgetallSignatureLength();
    FixedByNameForUnlistedLength(MethodDecl("hgetall", "RedisHashCommands", "Map<K, V>", ["K key"]));
  }

  // ---------------------------------------------------------------------------
  // Proof helpers: facts about the literal keys and signatures used above
  // ---------------------------------------------------------------------------

  /** The lengths of the keys of the table. */
  lemma KeyLengths()
    ensures forall k :: k in RESULT_SPEC ==> |k| == 6 || |k| == 7 || |k| == 8 || |k| == 10 || |k| == 28 || |k| == 54
  {
  }

  lemma GeoposEntry()
    ensures "geopos" in RESULT_SPEC && RESULT_SPEC["geopos"] == "Flux<Value<GeoCoordinates>>"
  {
  }

  lemma GeoposSignatureLength()
    ensures |Signature(MethodDecl("geopos", "RedisGeoCommands", "List<GeoCoordinates>", ["K key", "V... members"]))| == 27
  {
    var m := MethodDecl("geopos", "RedisGeoCommands", "List<GeoCoordinates>", ["K key", "V... members"]);
    SignatureLength(m);
    assert SumOfLengths(m.parameters) == 17;
  }

  lemma AclCatKey()
    ensures "aclCat" + "(" + "AclCategory category" + ")" == "aclCat(AclCategory category)"
  {
    assert "aclCat" + "(" == "aclCat(";
  }

  lemma StreamingParameter()
    ensures "KeyValue" + "StreamingChannel" + "<K, V> channel" == "KeyValueStreamingChannel<K, V> channel"
  {
  }

  lemma StreamingKeyPrefix()
    ensures "hgetall" + "(" + "KeyValue" + "StreamingChannel" == "hgetall(KeyValueStreamingChannel"
  {
    assert "hgetall" + "(" + "KeyValue" == "hgetall(KeyValue";
  }

  lemma StreamingKeySuffix()
    ensures "hgetall(KeyValueStreamingChannel" + "<K, V> channel" + ", " + "K key" + ")"
      == "hgetall(KeyValueStreamingChannel<K, V> channel, K key)"
  {
    assert "hgetall(KeyValueStreamingChannel" + "<K, V> channel" == "hgetall(KeyValueStreamingChannel<K, V> channel";
    assert "hgetall(KeyValueStreamingChannel<K, V> channel" + ", " + "K key" + ")"
      == "hgetall(KeyValueStreamingChannel<K, V> channel, K key)";
  }

  lemma HgetallEntries()
    ensures "hgetall" in RESULT_SPEC && RESULT_SPEC["hgetall"] == "Flux<KeyValue<K, V>>"
    ensures "hgetall(KeyValueStreamingChannel<K, V> channel, K key)" in RESULT_SPEC
    ensures RESULT_SPEC["hgetall(KeyValueStreamingChannel<K, V> channel, K key)"] == "Mono<Long>"
  {
  }

  lemma HgetallSignatureLength()
    ensures |Signature(MethodDecl("hgetall", "RedisHashCommands", "Map<K, V>", ["K key"]))| == 14
  {
    SignatureLength(MethodDecl("hgetall", "RedisHashCommands", "Map<K, V>", ["K key"]));
  }
}
