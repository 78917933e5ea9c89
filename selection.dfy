/**
 The pure part of the fzf matcher: the final list comprehension
 `[x for x in candidates if x['word'] in fzf_result]`, the string
 containment test that `in` performs on two strings, and the newline join
 that builds the process's standard input.
 */
module Selection {

  /** A denite candidate: the `word` that is matched, plus any other entries
      of the candidate dictionary, which are carried along untouched. */
  datatype Candidate = Candidate(word: string, attrs: map<string, string>)

  /** `w` occurs in `s` starting at offset `i`. */
  predicate OccursAt(w: string, s: string, i: nat)
  {
    i + |w| <= |s| && s[i..i + |w|] == w
  }

  /** Python's `w in s` for two strings: a substring test (the empty string
      occurs in every string). */
  predicate Contains(s: string, w: string)
  {
    exists i: nat | i <= |s| :: OccursAt(w, s, i)
  }

  /** The test the comprehension applies to each candidate. */
  predicate Kept(c: Candidate, output: string)
  {
    Contains(output, c.word)
  }

  /** The comprehension over the candidates, left to right. */
  function Select(cands: seq<Candidate>, output: string): (r: seq<Candidate>)
    ensures |r| <= |cands|
    ensures forall k :: 0 <= k < |r| ==> r[k] in cands && Kept(r[k], output)
  {
    if cands == [] then []
    else (if Kept(cands[0], output) then [cands[0]] else []) + Select(cands[1..], output)
  }

  /** `r` is obtained from `s` by deleting elements, keeping the order. */
  predicate IsSubsequence<T(==)>(r: seq<T>, s: seq<T>)
    decreases |s|
  {
    if r == [] then true
    else if s == [] then false
    else (r[0] == s[0] && IsSubsequence(r[1..], s[1..])) || IsSubsequence(r, s[1..])
  }

  /** The selection keeps the candidates in their original order and never
      invents one. */
  lemma {:induction false} SelectIsSubsequence(cands: seq<Candidate>, output: string)
    ensures IsSubsequence(Select(cands, output), cands)
  {
    if cands != [] {
      var rest := Select(cands[1..], output);
      SelectIsSubsequence(cands[1..], output);
      if Kept(cands[0], output) {
        assert Select(cands, output) == [cands[0]] + rest;
        assert ([cands[0]] + rest)[1..] == rest;
      } else {
        assert Select(cands, output) == rest;
        SkipHead(rest, cands);
      }
    }
  }

  /** A subsequence of the tail is a subsequence of the whole. */
  lemma {:induction false} SkipHead<T>(r: seq<T>, s: seq<T>)
    requires s != [] && IsSubsequence(r, s[1..])
    ensures IsSubsequence(r, s)
  {
  }

  /** Every element of a subsequence occurs at most as often as in the
      sequence it was taken from. */
  lemma {:induction false} SubsequenceCounts<T>(r: seq<T>, s: seq<T>)
    requires IsSubsequence(r, s)
    ensures multiset(r) <= multiset(s)
    decreases |s|
  {
    if r != [] {
      assert s == [s[0]] + s[1..];
      if r[0] == s[0] && IsSubsequence(r[1..], s[1..]) {
        SubsequenceCounts(r[1..], s[1..]);
        assert r == [r[0]] + r[1..];
      } else {
        SubsequenceCounts(r, s[1..]);
      }
    }
  }

  /** A candidate survives exactly when it was in the input and its word
      occurs in the process output. */
  lemma {:induction false} SelectMembership(cands: seq<Candidate>, output: string, c: Candidate)
    ensures c in Select(cands, output) <==> c in cands && Kept(c, output)
  {
    if cands != [] {
      SelectMembership(cands[1..], output, c);
      assert cands == [cands[0]] + cands[1..];
    }
  }

  /** Duplicates are kept: each kept candidate appears as often as in the
      input, each dropped one not at all. */
  lemma {:induction false} SelectCounts(cands: seq<Candidate>, output: string, c: Candidate)
    ensures multiset(Select(cands, output))[c] == if Kept(c, output) then multiset(cands)[c] else 0
  {
    if cands != [] {
      var head := if Kept(cands[0], output) then [cands[0]] else [];
      SelectCounts(cands[1..], output, c);
      assert Select(cands, output) == head + Select(cands[1..], output);
      assert multiset(Select(cands, output)) == multiset(head) + multiset(Select(cands[1..], output));
      assert cands == [cands[0]] + cands[1..];
      assert multiset(cands) == multiset([cands[0]]) + multiset(cands[1..]);
      assert multiset(head)[c] == if Kept(c, output) then multiset([cands[0]])[c] else 0;
    }
  }

  /** The three properties above determine the selection: any subsequence of
      the candidates that keeps every kept candidate as often as it occurs,
      and no other, is the selection. */
  lemma {:induction false} SelectUnique(r: seq<Candidate>, cands: seq<Candidate>, output: string)
    requires IsSubsequence(r, cands)
    requires forall c :: multiset(r)[c] == if Kept(c, output) then multiset(cands)[c] else 0
    ensures r == Select(cands, output)
    decreases |cands|
  {
    if cands == [] {
      assert r == [];
    } else {
      var c0, tail := cands[0], cands[1..];
      assert cands == [c0] + tail;
      if Kept(c0, output) {
        assert multiset(r)[c0] > 0;
        assert r == [r[0]] + r[1..];
        if r[0] == c0 && IsSubsequence(r[1..], tail) {
          forall c ensures multiset(r[1..])[c] == if Kept(c, output) then multiset(tail)[c] else 0 {
          }
          SelectUnique(r[1..], tail, output);
        } else {
          SubsequenceCounts(r, tail);
          assert false;
        }
      } else {
        assert multiset(r)[c0] == 0;
        if r != [] {
          assert r == [r[0]] + r[1..];
          assert r[0] != c0;
        }
        assert IsSubsequence(r, tail);
        forall c ensures multiset(r)[c] == if Kept(c, output) then multiset(tail)[c] else 0 {
        }
        SelectUnique(r, tail, output);
      }
    }
  }

  /** Python's `'\n'.join(words)`. */
  function JoinLines(words: seq<string>): string
  {
    if words == [] then []
    else if |words| == 1 then words[0]
    else words[0] + "\n" + JoinLines(words[1..])
  }

  /** Every joined line occurs in the joined text: a word that the process
      prints as a line of its output is kept by the selection. */
  lemma {:induction false} JoinedLineOccurs(words: seq<string>, k: nat)
    requires k < |words|
    ensures Contains(JoinLines(words), words[k])
  {
    if |words| > 1 {
      var rest := JoinLines(words[1..]);
      assert JoinLines(words) == words[0] + "\n" + rest;
      if k == 0 {
        assert OccursAt(words[0], JoinLines(words), 0);
      } else {
        var w, full := words[k], JoinLines(words);
        assert words[1..][k - 1] == w;
        JoinedLineOccurs(words[1..], k - 1);
        var i: nat :| i <= |rest| && OccursAt(w, rest, i);
        var j := |words[0]| + 1 + i;
        assert |full| == |words[0]| + 1 + |rest|;
        assert full[j..j + |w|] == rest[i..i + |w|] by {
          forall p | j <= p < j + |w| ensures full[p] == rest[p - j + i] { }
        }
        assert OccursAt(w, full, j);
      }
    } else {
      assert OccursAt(words[k], JoinLines(words), 0);
    }
  }

  /** A candidate whose word is one of the printed lines is kept. */
  lemma LineIsKept(lines: seq<string>, c: Candidate)
    requires c.word in lines
    ensures Kept(c, JoinLines(lines))
  {
    var k :| 0 <= k < |lines| && lines[k] == c.word;
    JoinedLineOccurs(lines, k);
  }

  /** A word whose first character never appears in `s` does not occur in `s`. */
  lemma MissingFirstChar(s: string, w: string)
    requires |w| > 0 && w[0] !in s
    ensures !Contains(s, w)
  {
  }

  /** The converse fails: the test is on substrings, not on whole lines. A
      candidate `app` is kept when the process printed only `apple`. */
  lemma PrefixOfLineIsKept()
    ensures var app := Candidate("app", map[]);
            app.word !in ["apple"] && Select([app], JoinLines(["apple"])) == [app]
  {
    assert OccursAt("app", "apple", 0);
  }

  /** The worked example: candidates apple, banana, grape and process output
      `apple\ngrape` leave apple and grape, in that order. */
  lemma FruitExample()
    ensures var apple, banana, grape := Candidate("apple", map[]), Candidate("banana", map[]), Candidate("grape", map[]);
            Select([apple, banana, grape], "apple\ngrape") == [apple, grape]
  {
    var s := "apple\ngrape";
    assert OccursAt("apple", s, 0);
    assert OccursAt("grape", s, 6);
    MissingFirstChar(s, "banana");
    var apple, banana, grape := Candidate("apple", map[]), Candidate("banana", map[]), Candidate("grape", map[]);
    assert Select([grape], s) == [grape];
    assert [apple, banana, grape][1..] == [banana, grape];
    assert [banana, grape][1..] == [grape];
    assert Select([banana, grape], s) == [grape];
  }
}
