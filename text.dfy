/**
 * The few Python string operations the scoring core relies on: `str.split`,
 * `str.startswith` and `str(n)` for a non-negative integer. `Join` is not
 * called by the application; it is the inverse of `Split` that the key
 * round-trip proofs are stated with.
 */
module Text {

  /** Python's `s.split(sep)` for a one-character separator: the pieces between
      separators, always at least one (`"".split("_") == [""]`). */
  function Split(s: string, sep: char): (parts: seq<string>)
    ensures |parts| >= 1
    ensures forall i :: 0 <= i < |parts| ==> sep !in parts[i]
    decreases |s|
  {
    if |s| == 0 then [""]
    else if s[0] == sep then [""] + Split(s[1..], sep)
    else
      var rest := Split(s[1..], sep);
      [[s[0]] + rest[0]] + rest[1..]
  }

  /** `sep.join(parts)` for a non-empty list: the pieces with the separator between them. */
  function Join(parts: seq<string>, sep: char): (s: string)
    requires |parts| >= 1
    decreases |parts|
  {
    if |parts| == 1 then parts[0] else parts[0] + [sep] + Join(parts[1..], sep)
  }

  /** Python's `s.startswith(prefix)`. */
  predicate StartsWith(s: string, prefix: string) {
    prefix <= s
  }

  /** The decimal digit for 0 <= d < 10. */
  function Digit(d: nat): (c: char)
    requires d < 10
    ensures '0' <= c <= '9'
  {
    ['0', '1', '2', '3', '4', '5', '6', '7', '8', '9'][d]
  }

  /** Python's `str(n)` (and the `{n}` of an f-string) for a non-negative integer. */
  function NatToString(n: nat): (s: string)
    ensures |s| >= 1
    ensures forall i :: 0 <= i < |s| ==> '0' <= s[i] <= '9'
  {
    if n < 10 then [Digit(n)] else NatToString(n / 10) + [Digit(n % 10)]
  }

  /** A piece that holds no separator splits to itself. */
  lemma {:induction false} SplitWithoutSeparator(a: string, sep: char)
    requires sep !in a
    ensures Split(a, sep) == [a]
    decreases |a|
  {
    if |a| > 0 {
      SplitWithoutSeparator(a[1..], sep);
      assert [a[0]] + a[1..] == a;
    }
  }

  /** Splitting `a + sep + b` where `a` holds no separator peels `a` off the front. */
  lemma {:induction false} SplitAfterPiece(a: string, sep: char, b: string)
    requires sep !in a
    ensures Split(a + [sep] + b, sep) == [a] + Split(b, sep)
    decreases |a|
  {
    var s := a + [sep] + b;
    if |a| == 0 {
      assert s[1..] == b;
    } else {
      assert s[1..] == a[1..] + [sep] + b;
      SplitAfterPiece(a[1..], sep, b);
      assert [a[0]] + a[1..] == a;
    }
  }

  /** Splitting what was joined gives back the pieces, when no piece holds the separator. */
  lemma {:induction false} SplitJoin(parts: seq<string>, sep: char)
    requires |parts| >= 1
    requires forall i :: 0 <= i < |parts| ==> sep !in parts[i]
    ensures Split(Join(parts, sep), sep) == parts
    decreases |parts|
  {
    if |parts| == 1 {
      SplitWithoutSeparator(parts[0], sep);
    } else {
      SplitJoin(parts[1..], sep);
      SplitAfterPiece(parts[0], sep, Join(parts[1..], sep));
      assert [parts[0]] + parts[1..] == parts;
    }
  }

  /** Joining the pieces of a split gives back the original string. */
  lemma {:induction false} JoinSplit(s: string, sep: char)
    ensures Join(Split(s, sep), sep) == s
    decreases |s|
  {
    if |s| > 0 {
      JoinSplit(s[1..], sep);
      var rest := Split(s[1..], sep);
      if s[0] == sep {
        assert Split(s, sep)[1..] == rest;
      } else {
        var parts := Split(s, sep);
        assert parts[1..] == rest[1..];
        if |rest| == 1 {
          assert Join(parts, sep) == [s[0]] + rest[0];
        } else {
          assert Join(rest, sep) == rest[0] + [sep] + Join(rest[1..], sep);
          assert Join(parts, sep) == [s[0]] + rest[0] + [sep] + Join(rest[1..], sep);
        }
        assert s == [s[0]] + s[1..];
      }
    }
  }

  /** A string that starts with the separator-free `a` and the separator has `a`
      as its first piece. */
  lemma FirstPiece(a: string, sep: char, s: string)
    ensures sep !in a && StartsWith(s, a + [sep]) ==> Split(s, sep)[0] == a
  {
    if sep !in a && StartsWith(s, a + [sep]) {
      var x := s[|a| + 1..];
      assert s == a + [sep] + x;
      SplitAfterPiece(a, sep, x);
    }
  }

  /** `a + sep + x` starts with `b + sep` exactly when `a == b`, for separator-free `a`, `b`. */
  lemma PrefixBeforeSeparator(a: string, b: string, sep: char, x: string)
    requires sep !in a && sep !in b
    ensures StartsWith(a + [sep] + x, b + [sep]) <==> a == b
  {
    var s := a + [sep] + x;
    if StartsWith(s, b + [sep]) {
      var y := s[|b| + 1..];
      assert s == b + [sep] + y;
      SplitAfterPiece(a, sep, x);
      SplitAfterPiece(b, sep, y);
      assert a == Split(s, sep)[0] == b;
    }
  }
}
