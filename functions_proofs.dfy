/** What `unique` and `envOrDefault` promise, proved about the model in
    functions.dfy. */
module FunctionsProofs {
  import opened Wrappers
  import opened ByteStrings
  import opened Functions

  /** No element occurs twice. */
  predicate Distinct(s: seq<Value>)
  {
    forall i, j | 0 <= i < j < |s| :: s[i] != s[j]
  }

  /** The position of the first occurrence of `x` in `s`. */
  function FirstIndex(s: seq<Value>, x: Value): (k: nat)
    requires x in s
    ensures k < |s| && s[k] == x
    ensures forall j | 0 <= j < k :: s[j] != x
  {
    if s[0] == x then 0
    else
      assert x in s[1..] by { assert s == [s[0]] + s[1..]; }
      FirstIndex(s[1..], x) + 1
  }

  /** Any position holding `x` with no earlier `x` is the first index. */
  lemma FirstIndexUnique(s: seq<Value>, x: Value, k: nat)
    requires k < |s| && s[k] == x
    requires forall j | 0 <= j < k :: s[j] != x
    ensures FirstIndex(s, x) == k
  {
  }

  /** Appending to a sequence keeps the first index of what was there. */
  lemma FirstIndexExtend(s: seq<Value>, y: Value, x: Value)
    requires x in s
    ensures FirstIndex(s + [y], x) == FirstIndex(s, x)
  {
    FirstIndexUnique(s + [y], x, FirstIndex(s, x));
  }

  /** The result holds exactly the input's elements. */
  lemma {:induction false} DedupElements(s: seq<Value>)
    ensures forall x :: x in Dedup(s) <==> x in s
  {
    if s != [] {
      var init := s[..|s| - 1];
      DedupElements(init);
      assert s == init + [s[|s| - 1]];
    }
  }

  /** The result holds no element twice. */
  lemma {:induction false} DedupDistinct(s: seq<Value>)
    ensures Distinct(Dedup(s))
  {
    if s != [] {
      DedupDistinct(s[..|s| - 1]);
    }
  }

  /** The result lists the elements in order of their first occurrence in
      the input. */
  lemma {:induction false} DedupFirstOccurrenceOrder(s: seq<Value>)
    ensures forall x | x in Dedup(s) :: x in s
    ensures forall i, j | 0 <= i < j < |Dedup(s)| ::
      FirstIndex(s, Dedup(s)[i]) < FirstIndex(s, Dedup(s)[j])
  {
    DedupElements(s);
    if s != [] {
      var init, last := s[..|s| - 1], s[|s| - 1];
      assert s == init + [last];
      DedupFirstOccurrenceOrder(init);
      DedupElements(init);
      var d0, d := Dedup(init), Dedup(s);
      forall i, j | 0 <= i < j < |d|
        ensures FirstIndex(s, d[i]) < FirstIndex(s, d[j])
      {
        assert d[i] in d0;
        FirstIndexExtend(init, last, d[i]);
        if j < |d0| {
          FirstIndexExtend(init, last, d[j]);
        } else {
          assert d[j] == last && last !in init;
          FirstIndexUnique(s, last, |s| - 1);
        }
      }
    }
  }

  /** A sequence without repeats is its own deduplication. */
  lemma {:induction false} DedupOfDistinct(s: seq<Value>)
    requires Distinct(s)
    ensures Dedup(s) == s
  {
    if s != [] {
      var init := s[..|s| - 1];
      DedupOfDistinct(init);
      assert forall k | 0 <= k < |init| :: init[k] != s[|s| - 1] by {
        forall k | 0 <= k < |init| ensures init[k] != s[|s| - 1] {
          assert init[k] == s[k];
        }
      }
      assert s == init + [s[|s| - 1]];
    }
  }

  /** Deduplicating twice changes nothing more. */
  lemma DedupIdempotent(s: seq<Value>)
    ensures Dedup(Dedup(s)) == Dedup(s)
  {
    DedupDistinct(s);
    DedupOfDistinct(Dedup(s));
  }

  /** unique fails exactly when the input is a slice holding an element
      that cannot be compared, and then names such an element. */
  lemma UniqueFailsIff(input: Option<seq<Value>>)
    ensures UniqueResult(input).Failure? <==>
      input.Some? && exists i | 0 <= i < |input.value| :: !Comparable(input.value[i])
    ensures UniqueResult(input).Failure? ==>
      UniqueResult(input).error.elem in input.value && !Comparable(UniqueResult(input).error.elem)
  {
  }

  /** A nil slice gives nil, and a non-nil slice of comparable elements
      gives a non-nil slice of its distinct elements, in first-occurrence
      order, no longer than the input. */
  lemma UniqueSucceeds(input: Option<seq<Value>>)
    requires input.None? || forall i | 0 <= i < |input.value| :: Comparable(input.value[i])
    ensures input.None? ==> UniqueResult(input) == Success(None)
    ensures input.Some? ==> UniqueResult(input).Success? && UniqueResult(input).value.Some?
    ensures input.Some? ==>
      var s, d := input.value, UniqueResult(input).value.value;
      |d| <= |s| && Distinct(d) && (forall x :: x in d <==> x in s) &&
      forall i, j | 0 <= i < j < |d| :: FirstIndex(s, d[i]) < FirstIndex(s, d[j])
  {
    if input.Some? {
      var s := input.value;
      DedupElements(s);
      DedupDistinct(s);
      DedupFirstOccurrenceOrder(s);
    }
  }

  /** Deduplicating a sequence one element longer than its prefix: the
      last element is appended unless already there. */
  lemma {:induction false} DedupPrefix(s: seq<Value>, k: nat)
    requires k < |s|
    ensures Dedup(s[..k + 1]) == if s[k] in Dedup(s[..k]) then Dedup(s[..k]) else Dedup(s[..k]) + [s[k]]
  {
    assert s[..k + 1][..k] == s[..k];
  }

  lemma DedupIntegers(s: seq<Value>)
    requires s == [Integer(1), Integer(2), Integer(2), Integer(3), Integer(1), Integer(4)]
    ensures Dedup(s) == [Integer(1), Integer(2), Integer(3), Integer(4)]
  {
    assert s[..0] == [];
    DedupPrefix(s, 0);
    DedupPrefix(s, 1);
    DedupPrefix(s, 2);
    DedupPrefix(s, 3);
    DedupPrefix(s, 4);
    DedupPrefix(s, 5);
    assert s[..6] == s;
  }

  /** The integer example: [1, 2, 2, 3, 1, 4] gives [1, 2, 3, 4]. */
  lemma UniqueIntegersExample()
    ensures UniqueResult(Some([Integer(1), Integer(2), Integer(2), Integer(3), Integer(1), Integer(4)]))
      == Success(Some([Integer(1), Integer(2), Integer(3), Integer(4)]))
  {
    var s := [Integer(1), Integer(2), Integer(2), Integer(3), Integer(1), Integer(4)];
    DedupIntegers(s);
    assert forall i | 0 <= i < |s| :: Comparable(s[i]);
  }

  lemma DedupStrings(s: seq<Value>)
    requires s == [Text([97]), Text([98]), Text([97]), Text([99]), Text([98])]
    ensures Dedup(s) == [Text([97]), Text([98]), Text([99])]
  {
    assert s[..0] == [];
    DedupPrefix(s, 0);
    DedupPrefix(s, 1);
    DedupPrefix(s, 2);
    DedupPrefix(s, 3);
    DedupPrefix(s, 4);
    assert s[..5] == s;
  }

  /** The string example: ["a", "b", "a", "c", "b"] gives ["a", "b", "c"]. */
  lemma UniqueStringsExample()
    ensures UniqueResult(Some([Text([97]), Text([98]), Text([97]), Text([99]), Text([98])]))
      == Success(Some([Text([97]), Text([98]), Text([99])]))
  {
    var s := [Text([97]), Text([98]), Text([97]), Text([99]), Text([98])];
    DedupStrings(s);
    assert forall i | 0 <= i < |s| :: Comparable(s[i]);
  }

  /** An empty slice gives an empty, non-nil slice. */
  lemma UniqueEmptyIsNotNil()
    ensures UniqueResult(Some([])) == Success(Some([]))
  {
  }

  /** A struct with a slice field cannot be compared, so unique fails on
      it. */
  lemma UniqueStructWithSliceFails()
    ensures UniqueResult(Some([Record([102, 111, 111], [List([Integer(1)])]),
                               Record([102, 111, 111], [List([Integer(1)])])])).Failure?
  {
    var f := Record([102, 111, 111], [List([Integer(1)])]);
    assert !Comparable(f.fields[0]);
  }

  /** A set, non-empty variable wins; otherwise the default does. */
  lemma EnvOrDefaultCases(env: map<Bytes, Bytes>, key: Bytes, defaultValue: Bytes)
    ensures key in env && env[key] != [] ==> EnvOrDefault(env, key, defaultValue) == env[key]
    ensures key !in env ==> EnvOrDefault(env, key, defaultValue) == defaultValue
    ensures key in env && env[key] == [] ==> EnvOrDefault(env, key, defaultValue) == defaultValue
  {
  }

  /** The result is empty only when the default is empty. */
  lemma EnvOrDefaultNonEmpty(env: map<Bytes, Bytes>, key: Bytes, defaultValue: Bytes)
    requires defaultValue != []
    ensures EnvOrDefault(env, key, defaultValue) != []
  {
  }

  /** Using the result as the default again gives the same result. */
  lemma EnvOrDefaultIdempotent(env: map<Bytes, Bytes>, key: Bytes, defaultValue: Bytes)
    ensures EnvOrDefault(env, key, EnvOrDefault(env, key, defaultValue))
      == EnvOrDefault(env, key, defaultValue)
  {
  }
}
