/** The two pieces of Go's `strings` package the middleware relies on, for a
    one-character separator and prefix: `strings.Split` and
    `strings.HasPrefix`/`strings.TrimPrefix`.  `Join` is the inverse of
    `Split` (Go's `strings.Join`) and serves to state what `Split` computes. */
module Strings {

  /** `strings.HasPrefix`: `s` is `prefix` followed by something. */
  predicate HasPrefix(s: string, prefix: string): (b: bool)
    ensures b <==> exists rest :: s == prefix + rest
  {
    assert |prefix| <= |s| ==> s == s[..|prefix|] + s[|prefix|..];
    |prefix| <= |s| && s[..|prefix|] == prefix
  }

  /** `strings.TrimPrefix`: drops `prefix` when `s` starts with it. */
  function TrimPrefix(s: string, prefix: string): (r: string)
    ensures HasPrefix(s, prefix) ==> prefix + r == s
    ensures !HasPrefix(s, prefix) ==> r == s
  {
    if HasPrefix(s, prefix) then s[|prefix|..] else s
  }

  /** `strings.Split(s, [sep])`: the pieces between the occurrences of `sep`;
      there is always one more piece than occurrences, so the empty string
      gives one empty piece. */
  function Split(s: string, sep: char): (parts: seq<string>)
    ensures |parts| >= 1
    ensures forall i :: 0 <= i < |parts| ==> sep !in parts[i]
    decreases |s|
  {
    if s == [] then [""]
    else
      var rest := Split(s[1..], sep);
      if s[0] == sep then [""] + rest
      else [[s[0]] + rest[0]] + rest[1..]
  }

  /** `strings.Join(parts, [sep])`. */
  function Join(parts: seq<string>, sep: char): string {
    if |parts| == 0 then ""
    else if |parts| == 1 then parts[0]
    else parts[0] + [sep] + Join(parts[1..], sep)
  }

  /** Joining the pieces back with the separator gives the original string:
      `Split` loses nothing and invents nothing. */
  lemma {:induction false} JoinSplit(s: string, sep: char)
    ensures Join(Split(s, sep), sep) == s
    decreases |s|
  {
    if s != [] {
      var rest := Split(s[1..], sep);
      JoinSplit(s[1..], sep);
      if s[0] == sep {
        assert Split(s, sep) == [""] + rest;
        assert ([""] + rest)[1..] == rest;
        assert s == [sep] + s[1..];
      } else {
        var parts := Split(s, sep);
        assert parts == [[s[0]] + rest[0]] + rest[1..];
        if |rest| == 1 {
          assert parts == [[s[0]] + rest[0]];
          assert s == [s[0]] + s[1..];
        } else {
          assert parts[1..] == rest[1..];
          assert Join(rest, sep) == rest[0] + [sep] + Join(rest[1..], sep);
          assert s == [s[0]] + s[1..];
        }
      }
    }
  }

  /** Splitting the pieces' join gives the pieces back, provided none of them
      contains the separator: `Split` and `Join` are mutually inverse. */
  lemma {:induction false} SplitJoin(parts: seq<string>, sep: char)
    requires |parts| >= 1
    requires forall i :: 0 <= i < |parts| ==> sep !in parts[i]
    ensures Split(Join(parts, sep), sep) == parts
    decreases |parts|, |parts[0]|
  {
    if |parts| == 1 {
      SplitNoSeparator(parts[0], sep);
    } else if parts[0] == [] {
      var tail := parts[1..];
      SplitJoin(tail, sep);
      assert Join(parts, sep) == [sep] + Join(tail, sep);
      assert (Join(parts, sep))[1..] == Join(tail, sep);
      assert parts == [""] + tail;
    } else {
      var c := parts[0][0];
      var shorter := [parts[0][1..]] + parts[1..];
      assert shorter[0] == parts[0][1..];
      assert forall i :: 1 <= i < |shorter| ==> shorter[i] == parts[i];
      SplitJoin(shorter, sep);
      assert parts[0] == [c] + parts[0][1..];
      assert Join(parts, sep) == [c] + Join(shorter, sep);
      assert (Join(parts, sep))[1..] == Join(shorter, sep);
      assert parts == [[c] + shorter[0]] + shorter[1..];
    }
  }

  lemma {:induction false} SplitNoSeparator(s: string, sep: char)
    requires sep !in s
    ensures Split(s, sep) == [s]
    decreases |s|
  {
    if s != [] {
      SplitNoSeparator(s[1..], sep);
      assert s == [s[0]] + s[1..];
    }
  }

  /** There is a second piece exactly when the separator occurs. */
  lemma {:induction false} SplitHasSecondPiece(s: string, sep: char)
    ensures |Split(s, sep)| >= 2 <==> sep in s
    decreases |s|
  {
    if s == [] {
    } else if s[0] == sep {
    } else {
      SplitHasSecondPiece(s[1..], sep);
      assert s == [s[0]] + s[1..];
      assert sep in s <==> sep in s[1..];
    }
  }
}
