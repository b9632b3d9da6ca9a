/**
 * The few pieces of Go's `strings` package that the generator relies on.
 *
 * A Go string is a sequence of bytes; here it is a Dafny `string` in which
 * every char stands for one byte (its code is the byte's value). All the
 * patterns the generator uses are ASCII, so this reading is exact for them.
 */
module GoStrings {
  /** U+FFFD encoded in UTF-8 (EF BF BD): what `strings.ToUpper` and
      `strings.ToLower` put in place of a byte that is not valid UTF-8. */
  const Replacement: string := ['\U{EF}', '\U{BF}', '\U{BD}']

  predicate IsAscii(c: char) { (c as int) < 0x80 }
  predicate IsAsciiUpper(c: char) { 'A' <= c <= 'Z' }
  predicate IsAsciiLower(c: char) { 'a' <= c <= 'z' }

  /** `strings.ToUpper` of the one-byte string `[c]`. A lone byte of 0x80 or
      more is never valid UTF-8, so Go replaces it. */
  function ToUpperByte(c: char): (r: string)
    ensures r == [c] <==> IsAscii(c) && !IsAsciiLower(c)
    ensures IsAscii(c) ==> |r| == 1 && !IsAsciiLower(r[0])
  {
    if !IsAscii(c) then Replacement
    else if IsAsciiLower(c) then [(c as int - 32) as char]
    else [c]
  }

  /** `strings.ToLower` of the one-byte string `[c]`. */
  function ToLowerByte(c: char): (r: string)
    ensures r == [c] <==> IsAscii(c) && !IsAsciiUpper(c)
    ensures IsAscii(c) ==> |r| == 1 && !IsAsciiUpper(r[0]) && ToUpperByte(r[0]) == ToUpperByte(c)
    ensures !IsAscii(c) ==> r == Replacement
  {
    if !IsAscii(c) then Replacement
    else if IsAsciiUpper(c) then [(c as int + 32) as char]
    else [c]
  }

  /** Lower-cases the ASCII letters of `s` and keeps every other byte. */
  function AsciiLower(s: string): (r: string)
    ensures |r| == |s|
    ensures forall i :: 0 <= i < |s| ==> !IsAsciiUpper(r[i])
    ensures forall i :: 0 <= i < |s| && !IsAsciiUpper(s[i]) ==> r[i] == s[i]
    ensures forall i :: 0 <= i < |s| && IsAsciiUpper(s[i]) ==> r[i] == (s[i] as int + 32) as char
  {
    if |s| == 0 then []
    else [if IsAsciiUpper(s[0]) then (s[0] as int + 32) as char else s[0]] + AsciiLower(s[1..])
  }

  lemma {:induction false} AsciiLowerConcat(a: string, b: string)
    ensures AsciiLower(a + b) == AsciiLower(a) + AsciiLower(b)
  {
    if |a| > 0 {
      assert (a + b)[1..] == a[1..] + b;
      AsciiLowerConcat(a[1..], b);
    } else {
      assert a + b == b;
    }
  }

  /** Lower-casing leaves a suffix without upper-case ASCII letters as it is. */
  lemma AsciiLowerKeepsSuffix(a: string, b: string)
    requires forall i :: 0 <= i < |b| ==> !IsAsciiUpper(b[i])
    ensures AsciiLower(a + b) == AsciiLower(a) + b
  {
    AsciiLowerConcat(a, b);
  }

  /** `sub` occurs in `s` starting at index `i`. */
  predicate OccursAt(s: string, sub: string, i: int)
  {
    0 <= i && i + |sub| <= |s| && s[i..i + |sub|] == sub
  }

  /** `strings.Contains(s, sub)`. */
  function Contains(s: string, sub: string): (r: bool)
    ensures r <==> exists i :: OccursAt(s, sub, i)
    decreases |s|
  {
    if |s| < |sub| then false
    else if s[..|sub|] == sub then (assert OccursAt(s, sub, 0); true)
    else
      var rest := Contains(s[1..], sub);
      assert forall i :: OccursAt(s[1..], sub, i) <==> OccursAt(s, sub, i + 1) by {
        forall i ensures OccursAt(s[1..], sub, i) <==> OccursAt(s, sub, i + 1) {
          if 0 <= i && i + |sub| <= |s| - 1 {
            assert s[1..][i..i + |sub|] == s[i + 1..i + 1 + |sub|];
          }
        }
      }
      assert !OccursAt(s, sub, 0);
      assert rest ==> OccursAt(s, sub, (var i :| OccursAt(s[1..], sub, i); i) + 1);
      assert (exists i :: OccursAt(s, sub, i)) ==> rest by {
        if exists i :: OccursAt(s, sub, i) {
          var i :| OccursAt(s, sub, i);
          assert i != 0;
          assert OccursAt(s[1..], sub, i - 1);
        }
      }
      rest
  }

  /** `strings.Split(s, string(sep))`: the pieces between the separators,
      always at least one (an empty `s` gives `[""]`). */
  function Split(s: string, sep: char): (r: seq<string>)
    ensures |r| >= 1
    ensures forall k :: 0 <= k < |r| ==> sep !in r[k]
    decreases |s|
  {
    if |s| == 0 then [""]
    else
      var rest := Split(s[1..], sep);
      if s[0] == sep then [""] + rest
      else [[s[0]] + rest[0]] + rest[1..]
  }

  /** `strings.Join(pieces, string(sep))`. */
  function Join(pieces: seq<string>, sep: char): string
    requires |pieces| >= 1
    decreases |pieces|
  {
    if |pieces| == 1 then pieces[0] else pieces[0] + [sep] + Join(pieces[1..], sep)
  }

  /** Joining the pieces of a split gives back the original string. */
  lemma {:induction false} JoinSplit(s: string, sep: char)
    ensures Join(Split(s, sep), sep) == s
    decreases |s|
  {
    if |s| > 0 {
      var rest := Split(s[1..], sep);
      JoinSplit(s[1..], sep);
      if s[0] == sep {
        assert Split(s, sep) == [""] + rest;
        assert ([""] + rest)[1..] == rest;
      } else {
        var r := [[s[0]] + rest[0]] + rest[1..];
        assert Split(s, sep) == r;
        if |rest| == 1 {
          assert Join(rest, sep) == rest[0];
        } else {
          assert r[1..] == rest[1..];
          assert Join(rest, sep) == rest[0] + [sep] + Join(rest[1..], sep);
        }
      }
    }
  }

  /** Splitting a join of separator-free pieces gives back the pieces. */
  lemma {:induction false} SplitJoin(pieces: seq<string>, sep: char)
    requires |pieces| >= 1
    requires forall k :: 0 <= k < |pieces| ==> sep !in pieces[k]
    ensures Split(Join(pieces, sep), sep) == pieces
    decreases |pieces|, |pieces[0]|
  {
    var p := pieces[0];
    if |p| > 0 {
      var tail := [p[1..]] + pieces[1..];
      assert forall k :: 0 <= k < |tail| ==> sep !in tail[k] by {
        forall k | 0 <= k < |tail| ensures sep !in tail[k] {
          if k == 0 { assert forall c :: c in p[1..] ==> c in p; } else { assert tail[k] == pieces[k]; }
        }
      }
      SplitJoin(tail, sep);
      var j := Join(pieces, sep);
      if |pieces| == 1 {
        assert j == p;
        assert Join(tail, sep) == p[1..];
      } else {
        assert tail[1..] == pieces[1..];
        assert Join(tail, sep) == p[1..] + [sep] + Join(pieces[1..], sep);
        assert j == [p[0]] + (p[1..] + [sep] + Join(pieces[1..], sep));
      }
      assert j[0] == p[0] && j[1..] == Join(tail, sep);
      assert p[0] != sep by { assert p[0] in p; }
      assert [[p[0]] + tail[0]] + tail[1..] == pieces by {
        assert [p[0]] + p[1..] == p;
      }
    } else if |pieces| > 1 {
      var j := Join(pieces, sep);
      assert j == [sep] + Join(pieces[1..], sep);
      assert j[1..] == Join(pieces[1..], sep);
      SplitJoin(pieces[1..], sep);
      assert [""] + pieces[1..] == pieces;
    }
  }
}
