/** How the two caches turn a request into a key. The digest is a parameter: nothing is
    assumed of it but, where stated, fixed length and the absence of collisions among the
    inputs actually hashed.
 */
module CacheKeys {

  type Hash = string -> string

  ghost predicate FixedLength(hash: Hash) {
    forall a, b :: |hash(a)| == |hash(b)|
  }

  /** No two of the given inputs share a digest. */
  ghost predicate CollisionFree(hash: Hash, inputs: set<string>) {
    forall a, b :: a in inputs && b in inputs && hash(a) == hash(b) ==> a == b
  }

  // ---------- token cache ----------

  const TOKEN_PREFIX := "lru:tiktoken:"

  function TokenPreimage(model: string, text: string): string {
    model + "|" + text
  }

  function TokenKey(hash: Hash, model: string, text: string): string {
    TOKEN_PREFIX + model + ":" + hash(TokenPreimage(model, text))
  }

  /** The key spells out the model, so two requests share a key exactly when the models agree
      and the digests agree, whatever characters the model names contain. */
  lemma TokenKeyExact(hash: Hash, model1: string, text1: string, model2: string, text2: string)
    requires FixedLength(hash)
    ensures TokenKey(hash, model1, text1) == TokenKey(hash, model2, text2) <==>
            model1 == model2 && hash(TokenPreimage(model1, text1)) == hash(TokenPreimage(model2, text2))
  {
    var k1, k2 := TokenKey(hash, model1, text1), TokenKey(hash, model2, text2);
    if k1 == k2 {
      var p := |TOKEN_PREFIX|;
      assert |model1| == |model2|;
      assert model1 == k1[p..p + |model1|] && model2 == k2[p..p + |model1|];
      assert hash(TokenPreimage(model1, text1)) == k1[p + |model1| + 1..];
      assert hash(TokenPreimage(model2, text2)) == k2[p + |model1| + 1..];
    }
  }

  lemma TokenKeyInjective(hash: Hash, model1: string, text1: string, model2: string, text2: string)
    requires FixedLength(hash)
    requires CollisionFree(hash, {TokenPreimage(model1, text1), TokenPreimage(model2, text2)})
    ensures TokenKey(hash, model1, text1) == TokenKey(hash, model2, text2) <==> model1 == model2 && text1 == text2
  {
    TokenKeyExact(hash, model1, text1, model2, text2);
    if model1 == model2 && TokenPreimage(model1, text1) == TokenPreimage(model2, text2) {
      assert text1 == TokenPreimage(model1, text1)[|model1| + 1..];
    }
  }

  // ---------- embeddings cache ----------

  function EmbeddingPreimage(provider: string, model: string, text: string): string {
    provider + ":" + model + ":" + text
  }

  function EmbeddingKey(hash: Hash, provider: string, model: string, text: string): string {
    hash(EmbeddingPreimage(provider, model, text))
  }

  /** `longer` is `model`, a colon, and something more. */
  predicate ColonExtension(model: string, longer: string) {
    model + ":" <= longer
  }

  lemma PreimageParts(provider: string, model1: string, text1: string, model2: string, text2: string)
    ensures EmbeddingPreimage(provider, model1, text1) == EmbeddingPreimage(provider, model2, text2) <==>
            model1 + ":" + text1 == model2 + ":" + text2
  {
    var a, b := model1 + ":" + text1, model2 + ":" + text2;
    assert EmbeddingPreimage(provider, model1, text1) == provider + ":" + a;
    assert EmbeddingPreimage(provider, model2, text2) == provider + ":" + b;
    var n := |provider| + 1;
    assert (provider + ":" + a)[n..] == a && (provider + ":" + b)[n..] == b;
  }

  lemma SplitAtFirst(model1: string, text1: string, model2: string, text2: string)
    requires |model1| < |model2| && model1 + ":" + text1 == model2 + ":" + text2
    ensures ColonExtension(model1, model2) && text1 == model2[|model1| + 1..] + ":" + text2
  {
    var a, b := model1 + ":" + text1, model2 + ":" + text2;
    var n := |model1|;
    assert a[..n] == model1 && a[n] == ':' && a[n + 1..] == text1;
    assert b[..n] == model2[..n] && b[n] == model2[n];
    assert b[n + 1..] == model2[n + 1..] + ":" + text2;
    assert model2[..n + 1] == model2[..n] + [model2[n]];
    assert model1 + ":" == model2[..n + 1];
  }

  /** The joined form of two different requests coincides exactly when one model name is a
      colon extension of the other and the extension sits in front of the other text. */
  lemma EmbeddingPreimageExact(provider: string, model1: string, text1: string, model2: string, text2: string)
    ensures EmbeddingPreimage(provider, model1, text1) == EmbeddingPreimage(provider, model2, text2) <==>
            || (model1 == model2 && text1 == text2)
            || (ColonExtension(model1, model2) && text1 == model2[|model1| + 1..] + ":" + text2)
            || (ColonExtension(model2, model1) && text2 == model1[|model2| + 1..] + ":" + text1)
  {
    PreimageParts(provider, model1, text1, model2, text2);
    if model1 + ":" + text1 == model2 + ":" + text2 {
      if |model1| == |model2| {
        assert model1 == (model1 + ":" + text1)[..|model1|] && model2 == (model2 + ":" + text2)[..|model1|];
        assert text1 == (model1 + ":" + text1)[|model1| + 1..] && text2 == (model2 + ":" + text2)[|model1| + 1..];
      } else if |model1| < |model2| {
        SplitAtFirst(model1, text1, model2, text2);
      } else {
        SplitAtFirst(model2, text2, model1, text1);
      }
    }
    if ColonExtension(model1, model2) { ExtensionRejoins(model1, model2, text2); }
    if ColonExtension(model2, model1) { ExtensionRejoins(model2, model1, text1); }
  }

  lemma ExtensionRejoins(model: string, longer: string, text: string)
    requires ColonExtension(model, longer)
    ensures model + ":" + (longer[|model| + 1..] + ":" + text) == longer + ":" + text
  {
    assert longer == longer[..|model| + 1] + longer[|model| + 1..];
    assert longer[..|model| + 1] == model + ":";
  }

  /** Two model names can be used together without ambiguity, for every pair of texts, exactly
      when neither is a colon extension of the other. Names without a colon always qualify. */
  lemma ModelsUnambiguousIff(provider: string, model1: string, model2: string)
    ensures (forall text1, text2 ::
               EmbeddingPreimage(provider, model1, text1) == EmbeddingPreimage(provider, model2, text2) ==>
                 model1 == model2 && text1 == text2)
            <==> !ColonExtension(model1, model2) && !ColonExtension(model2, model1)
    ensures ':' !in model1 && ':' !in model2 ==> !ColonExtension(model1, model2) && !ColonExtension(model2, model1)
  {
    forall text1, text2 | EmbeddingPreimage(provider, model1, text1) == EmbeddingPreimage(provider, model2, text2)
      ensures || (model1 == model2 && text1 == text2)
              || ColonExtension(model1, model2) || ColonExtension(model2, model1)
    {
      EmbeddingPreimageExact(provider, model1, text1, model2, text2);
    }
    if ColonExtension(model1, model2) {
      EmbeddingPreimageExact(provider, model1, model2[|model1| + 1..] + ":" + "a", model2, "a");
      assert (model1 + ":")[|model1|] == ':' && model2[|model1|] == ':';
    }
    if ColonExtension(model2, model1) {
      EmbeddingPreimageExact(provider, model1, "a", model2, model1[|model2| + 1..] + ":" + "a");
      assert (model2 + ":")[|model2|] == ':' && model1[|model2|] == ':';
    }
  }
}
