/** What the classification of oasdiff's findings means for removed properties. */
module PropertyRemovals {
  import opened Wrappers
  import opened Text
  import opened Json
  import opened Versions
  import opened PropertyName
  import opened ChangePipeline

  /** The script's documentation asks that a removed property was deprecated in the baseline.
      That is checked exactly for removals whose text names neither a response nor a request
      property; every other one passes, whatever the baseline says of it. */
  lemma PropertyRemovalRule(p: Patterns, c: Change)
    requires KindOf(ScriptRules(p), c) == PropertyRemoval
    ensures (forall context :: !Fails(ScriptRules(p), context, c)) <==>
            Contains(Lower(c.text), "from the response") || Contains(Lower(c.text), "request property")
    ensures !(Contains(Lower(c.text), "from the response") || Contains(Lower(c.text), "request property")) ==>
              forall context :: Fails(ScriptRules(p), context, c) <==> !PropertyMayGo(context, c)
  {
    if !(Contains(Lower(c.text), "from the response") || Contains(Lower(c.text), "request property")) {
      var context := EmptyBaseline(Version(0, 0, 0, None));
      NothingMayGo(Version(0, 0, 0, None), c);
      assert Fails(ScriptRules(p), context, c);
    }
  }

  /** A baseline that declares nothing. */
  function EmptyBaseline(current: Version): Context { Context(Obj(map[]), current, description => None) }

  lemma NothingMayGo(current: Version, c: Change)
    ensures !PropertyMayGo(EmptyBaseline(current), c)
  {
    assert Properties(Obj(map[])) == {};
  }

  /** The words of a removal report on a response property, for any name. */
  function RemovalText(name: string): string { RemovalFront(name) + "from the response" }

  function RemovalFront(name: string): string { "removed the required property `" + name + "` " }

  const REMOVAL_ID := "response-" + ("property" + ("-" + ("removed" + "")))

  /** Such a removal: a required response property that no baseline ever declared deprecated is
      removed, the validator would object, and the run passes all the same. */
  lemma UndeprecatedRemovalPasses(p: Patterns, name: string, current: Version) returns (c: Change)
    ensures c.id == REMOVAL_ID && c.text == RemovalText(name) && KindOf(ScriptRules(p), c) == PropertyRemoval
    ensures !PropertyMayGo(EmptyBaseline(current), c)
    ensures forall context :: !Fails(ScriptRules(p), context, c)
  {
    c := Change(REMOVAL_ID, RemovalText(name), "", "", "", Details("", "", Null));
    RemovalIdKind();
    TextNamesResponse(name);
    PropertyRemovalRule(p, c);
    NothingMayGo(current, c);
  }

  lemma RemovalIdKind()
    ensures Contains(Lower(REMOVAL_ID), "removed") && Contains(Lower(REMOVAL_ID), "property")
    ensures !Contains(Lower(REMOVAL_ID), "operation")
  {
    assert IsLower("property") && IsLower("removed");
    TwoWords("response-", "property", "-", "removed", "");
    LacksOperation("response-", "property", "-", "removed");
  }

  lemma TwoWords(a: string, v: string, b: string, w: string, c: string)
    requires IsLower(v) && IsLower(w)
    ensures Contains(Lower(a + (v + (b + (w + c)))), v) && Contains(Lower(a + (v + (b + (w + c)))), w)
  {
    ContainsMiddle(a, v, b + (w + c));
    ContainsMiddle(a + v + b, w, c);
    assert a + (v + (b + (w + c))) == (a + v + b) + (w + c);
    LowerContains(a + (v + (b + (w + c))), v);
    LowerContains(a + (v + (b + (w + c))), w);
  }

  predicate LacksA(s: string) { 'a' !in s && 'A' !in s }

  lemma LacksOperation(a: string, v: string, b: string, w: string)
    requires LacksA(a) && LacksA(v) && LacksA(b) && LacksA(w)
    ensures !Contains(Lower(a + (v + (b + (w + "")))), "operation")
  {
    assert "operation"[4] == 'a';
    LacksCharacter(a + (v + (b + (w + ""))), "operation", 4);
  }

  lemma ContainsMiddle(a: string, w: string, b: string)
    ensures Contains(a + (w + b), w)
  {
    assert OccursAt(a + (w + b), |a|, w);
  }

  /** A text in which a letter stands in neither case does not contain a word with it. */
  lemma LacksCharacter(text: string, w: string, k: nat)
    requires k < |w| && w[k] == 'a' && 'a' !in text && 'A' !in text
    ensures !Contains(Lower(text), w)
  {
    forall i | 0 <= i <= |Lower(text)|
      ensures !OccursAt(Lower(text), i, w)
    {
      if i + |w| <= |text| {
        assert text[i + k] != 'a' && text[i + k] != 'A';
        assert Lower(text)[i + k] != w[k];
      }
    }
  }

  lemma TextNamesResponse(name: string)
    ensures Contains(Lower(RemovalText(name)), "from the response")
  {
    assert IsLower("from the response");
    EndsInWord(RemovalFront(name), "from the response");
  }

  lemma EndsInWord(front: string, w: string)
    requires IsLower(w)
    ensures Contains(Lower(front + w), w)
  {
    assert OccursAt(front + w, |front|, w);
    LowerContains(front + w, w);
  }

  lemma CheckedIsNoArtifact(r: Rules, c: Change)
    requires BucketOf(r, c) == CheckedProperty
    ensures r.removedProperty(c) && !r.unionProperty(c)
  {}

  lemma NoArtifactNoRequest(c: Change)
    requires IsRemovedProperty(c) && !IsUnionPropertyArtifact(c)
    ensures !Contains(Lower(c.text), REQUEST_WORDS)
  {}

  lemma RequestUnused(text: string)
    requires !Contains(Lower(text), REQUEST_WORDS)
    ensures FindName(text, 0, [REQUEST_WORDS] + OTHER_WORDS) == FindName(text, 0, OTHER_WORDS)
  {
    assert IsLower(REQUEST_WORDS);
    UnusedInLower(text, REQUEST_WORDS, OTHER_WORDS);
  }

  /** The "request property" alternative of the name pattern is dead: a removal whose text has it
      never reaches the validator. */
  lemma RequestAlternativeIsDead(p: Patterns, c: Change)
    requires BucketOf(ScriptRules(p), c) == CheckedProperty
    ensures FindName(c.text, 0, [REQUEST_WORDS] + OTHER_WORDS) == FindName(c.text, 0, OTHER_WORDS)
  {
    CheckedIsNoArtifact(ScriptRules(p), c);
    NoArtifactNoRequest(c);
    RequestUnused(c.text);
  }
}
