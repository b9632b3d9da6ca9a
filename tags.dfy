/**
 * The `gorm` tag's column attribute, found with the pattern
 * `column:([\w]+);?` (main.go:33) by `FindStringSubmatch` (main.go:336).
 */
module Tags {
  import opened Wrappers
  import opened GoStrings

  const ColumnKey: string := "column:"

  /** `\w` in Go's regexp syntax: ASCII letters, digits and underscore. */
  predicate IsWordChar(c: char)
  {
    '0' <= c <= '9' || 'A' <= c <= 'Z' || 'a' <= c <= 'z' || c == '_'
  }

  /** The pattern can match starting at index `i` of `s`: the literal
      `column:` followed by at least one word character. */
  predicate MatchesAt(s: string, i: int)
  {
    0 <= i && i + |ColumnKey| < |s| && s[i..i + |ColumnKey|] == ColumnKey && IsWordChar(s[i + |ColumnKey|])
  }

  /** What the greedy group `([\w]+)` captures at the front of `s`: the
      longest prefix made of word characters. */
  function WordRun(s: string): (r: string)
    ensures r <= s
    ensures forall k :: 0 <= k < |r| ==> IsWordChar(r[k])
    ensures |r| == |s| || !IsWordChar(s[|r|])
    decreases |s|
  {
    if |s| > 0 && IsWordChar(s[0]) then [s[0]] + WordRun(s[1..]) else []
  }

  /** Leftmost-first search for a match starting at `i` or later; the result
      is the first capture group. */
  function FindColumnFrom(s: string, i: nat): (r: Option<string>)
    ensures r.Some? ==> |r.value| > 0 && forall k :: 0 <= k < |r.value| ==> IsWordChar(r.value[k])
    decreases |s| - i
  {
    if i + |ColumnKey| >= |s| then None
    else if MatchesAt(s, i) then Some(WordRun(s[i + |ColumnKey|..]))
    else FindColumnFrom(s, i + 1)
  }

  /** `info.column` for a tagged field: `submatch[1]` when the pattern
      matches the `gorm` value, and the empty string otherwise (main.go:336-339). */
  function Column(gorm: string): (c: string)
    ensures forall k :: 0 <= k < |c| ==> IsWordChar(c[k])
  {
    match FindColumnFrom(gorm, 0)
    case Some(c) => c
    case None => ""
  }

  lemma {:induction false} FindColumnFromIsLeftmost(s: string, i: nat)
    ensures FindColumnFrom(s, i).None? <==> forall j :: i <= j ==> !MatchesAt(s, j)
    ensures forall j :: i <= j && MatchesAt(s, j) && (forall k :: i <= k < j ==> !MatchesAt(s, k)) ==>
              FindColumnFrom(s, i) == Some(WordRun(s[j + |ColumnKey|..]))
    decreases |s| - i
  {
    if i + |ColumnKey| < |s| && !MatchesAt(s, i) {
      FindColumnFromIsLeftmost(s, i + 1);
      forall j | i <= j && MatchesAt(s, j) && (forall k :: i <= k < j ==> !MatchesAt(s, k))
        ensures FindColumnFrom(s, i) == Some(WordRun(s[j + |ColumnKey|..]))
      {
        assert j != i;
      }
    }
  }

  /** The column is the maximal word-character run after the leftmost
      `column:` that is followed by a word character; it is empty exactly
      when there is no such `column:`. */
  lemma ColumnIsLeftmostCapture(gorm: string)
    ensures Column(gorm) == "" <==> forall i :: !MatchesAt(gorm, i)
    ensures forall i :: MatchesAt(gorm, i) && (forall k :: 0 <= k < i ==> !MatchesAt(gorm, k)) ==>
              Column(gorm) == WordRun(gorm[i + |ColumnKey|..])
  {
    FindColumnFromIsLeftmost(gorm, 0);
    if c: string :| FindColumnFrom(gorm, 0) == Some(c) {
      // the capture of a match is never empty, so "" stands for "no match"
      var i := LeftmostMatch(gorm, 0);
      assert WordRun(gorm[i + |ColumnKey|..])[0] == gorm[i + |ColumnKey|];
    }
  }

  /** The first match at or after `from`, when there is one. */
  lemma {:induction false} LeftmostMatch(s: string, from: nat) returns (i: nat)
    requires exists j :: from <= j && MatchesAt(s, j)
    ensures from <= i && MatchesAt(s, i) && forall k :: from <= k < i ==> !MatchesAt(s, k)
    decreases |s| - from
  {
    if MatchesAt(s, from) {
      i := from;
    } else {
      var j :| from <= j && MatchesAt(s, j);
      i := LeftmostMatch(s, from + 1);
    }
  }

  /** The capture is exactly the word run `w` when the character after it
      is not a word character. */
  lemma {:induction false} WordRunOfPrefix(w: string, rest: string)
    requires forall k :: 0 <= k < |w| ==> IsWordChar(w[k])
    requires |rest| == 0 || !IsWordChar(rest[0])
    ensures WordRun(w + rest) == w
    decreases |w|
  {
    if |w| > 0 {
      assert (w + rest)[1..] == w[1..] + rest;
      WordRunOfPrefix(w[1..], rest);
      assert [w[0]] + w[1..] == w;
    } else {
      assert w + rest == rest;
    }
  }

  /** A value that starts with `column:`, a word run `w` and then a
      non-word character (or nothing) gives the column `w`. */
  lemma ColumnOfLeadingKey(w: string, rest: string)
    requires |w| > 0 && forall k :: 0 <= k < |w| ==> IsWordChar(w[k])
    requires |rest| == 0 || !IsWordChar(rest[0])
    ensures Column(ColumnKey + w + rest) == w
  {
    var s := ColumnKey + w + rest;
    assert s[..|ColumnKey|] == ColumnKey;
    assert s[|ColumnKey|..] == w + rest;
    assert s[|ColumnKey|] == w[0];
    assert MatchesAt(s, 0);
    ColumnIsLeftmostCapture(s);
    WordRunOfPrefix(w, rest);
  }

  /** The `gorm` value of example/foo.go:16, `column:province_id;comment:所属省id`,
      with its comment as the UTF-8 bytes Go sees, gives the column `province_id`. */
  lemma ColumnOfProvinceId(w: string, rest: string)
    requires w == "province_id"
    requires rest == ";comment:" + ['\U{E6}', '\U{89}', '\U{80}', '\U{E5}', '\U{B1}', '\U{9E}', '\U{E7}', '\U{9C}', '\U{81}'] + "id"
    ensures Column(ColumnKey + w + rest) == w
  {
    assert forall k :: 0 <= k < |w| ==> IsWordChar(w[k]);
    assert rest[0] == ';';
    ColumnOfLeadingKey(w, rest);
  }

  /** A `gorm` value in which `column:` occurs nowhere gives the empty
      column. */
  lemma ColumnOfNoColumn(gorm: string)
    requires forall i :: !OccursAt(gorm, ColumnKey, i)
    ensures Column(gorm) == ""
  {
    ColumnIsLeftmostCapture(gorm);
    forall i ensures !MatchesAt(gorm, i) {
      if MatchesAt(gorm, i) {
        assert OccursAt(gorm, ColumnKey, i);
      }
    }
  }
}
