/**
 * The last step of formatting a row for the COPY stream
 * (PostgresBulkDatabaseWriter.removeIllegalCharacters): a NUL character
 * ends a text frame of the COPY protocol, so every NUL is dropped.
 */
module IllegalCharacters {

  /** The text with every NUL character dropped and all others kept, in order. */
  function WithoutNul(s: string): string
  {
    if s == [] then []
    else WithoutNul(s[..|s| - 1]) + (if s[|s| - 1] == '\0' then [] else [s[|s| - 1]])
  }

  /** Dropping NULs distributes over concatenation: the relative order of what is kept is preserved. */
  lemma {:induction false} WithoutNulAppend(a: string, b: string)
    ensures WithoutNul(a + b) == WithoutNul(a) + WithoutNul(b)
    decreases |b|
  {
    if b == [] {
      assert a + b == a;
    } else {
      var b' := b[..|b| - 1];
      assert (a + b)[..|a + b| - 1] == a + b';
      WithoutNulAppend(a, b');
    }
  }

  /** The result has no NUL character. */
  lemma {:induction false} WithoutNulHasNoNul(s: string)
    ensures '\0' !in WithoutNul(s)
  {
    if s != [] {
      WithoutNulHasNoNul(s[..|s| - 1]);
    }
  }

  /** Every non-NUL character keeps its number of occurrences and no NUL remains. */
  lemma {:induction false} WithoutNulContents(s: string)
    ensures multiset(WithoutNul(s)) == multiset(s)['\0' := 0]
  {
    if s != [] {
      var init, c := s[..|s| - 1], s[|s| - 1];
      WithoutNulContents(init);
      assert s == init + [c];
      assert multiset(s) == multiset(init) + multiset{c};
      var w := WithoutNul(init);
      if c == '\0' {
        assert WithoutNul(s) == w;
      } else {
        assert WithoutNul(s) == w + [c];
        assert multiset(WithoutNul(s)) == multiset(w) + multiset{c};
      }
    }
  }

  /** The result is exactly as much shorter as the input had NULs, so never longer. */
  lemma {:induction false} WithoutNulLength(s: string)
    ensures |WithoutNul(s)| == |s| - multiset(s)['\0'] <= |s|
  {
    if s != [] {
      var init, c := s[..|s| - 1], s[|s| - 1];
      WithoutNulLength(init);
      assert s == init + [c];
      assert multiset(s)['\0'] == multiset(init)['\0'] + (if c == '\0' then 1 else 0);
    }
  }

  /** The text comes back unchanged exactly when it holds no NUL. */
  lemma {:induction false} WithoutNulUnchanged(s: string)
    ensures WithoutNul(s) == s <==> '\0' !in s
  {
    if '\0' in s {
      WithoutNulLength(s);
      assert multiset(s)['\0'] > 0;
    } else if s != [] {
      var init := s[..|s| - 1];
      assert s == init + [s[|s| - 1]];
      assert '\0' !in init;
      WithoutNulUnchanged(init);
    }
  }

  /** Removing the NULs twice is the same as removing them once. */
  lemma WithoutNulIdempotent(s: string)
    ensures WithoutNul(WithoutNul(s)) == WithoutNul(s)
  {
    WithoutNulHasNoNul(s);
    WithoutNulUnchanged(WithoutNul(s));
  }

  /** removeIllegalCharacters: appends every character above 0 to a builder. */
  method RemoveIllegalCharacters(formattedData: string) returns (buff: string)
    ensures buff == WithoutNul(formattedData)
  {
    buff := "";
    for k := 0 to |formattedData|
      invariant buff == WithoutNul(formattedData[..k])
    {
      var c := formattedData[k];
      if c as int > 0 {
        buff := buff + [c];
      }
      assert formattedData[..k + 1][..k] == formattedData[..k];
    }
    assert formattedData[..|formattedData|] == formattedData;
  }
}
