/** String helpers with the semantics of the Kotlin standard library calls the server makes. */
module Text {

  /**
   * Kotlin's `String.split(sep)` with a one-character delimiter and no limit:
   * every occurrence of `sep` cuts, empty pieces (leading, inner and trailing)
   * are kept, and the result is never empty.  Defined from the last character.
   */
  function Split(s: string, sep: char): (parts: seq<string>)
    ensures |parts| >= 1
    decreases |s|
  {
    if s == [] then [""]
    else
      var init := Split(s[..|s| - 1], sep);
      var c := s[|s| - 1];
      if c == sep then init + [""]
      else init[..|init| - 1] + [init[|init| - 1] + [c]]
  }

  /** No piece holds the separator. */
  lemma {:induction false} SplitPiecesLackSep(s: string, sep: char)
    ensures forall i | 0 <= i < |Split(s, sep)| :: sep !in Split(s, sep)[i]
    decreases |s|
  {
    if s != [] {
      var t := s[..|s| - 1];
      SplitPiecesLackSep(t, sep);
      assert t + [s[|s| - 1]] == s;
      SplitSnoc(t, s[|s| - 1], sep);
    }
  }

  /** Kotlin's `joinToString(sep)` over a non-empty list of pieces. */
  function Join(parts: seq<string>, sep: char): string
    requires |parts| >= 1
  {
    if |parts| == 1 then parts[0]
    else Join(parts[..|parts| - 1], sep) + [sep] + parts[|parts| - 1]
  }

  /** Kotlin's `List.last()` on the (never empty) result of `Split`. */
  function Last(parts: seq<string>): string
    requires |parts| >= 1
  {
    parts[|parts| - 1]
  }

  /** The pieces that are not the empty string, in order. */
  function NonEmpty(parts: seq<string>): (r: seq<string>)
    ensures |r| <= |parts|
  {
    if parts == [] then []
    else NonEmpty(parts[..|parts| - 1]) + (if parts[|parts| - 1] == "" then [] else [parts[|parts| - 1]])
  }

  /** `NonEmpty` keeps exactly the non-empty pieces. */
  lemma {:induction false} NonEmptyMembers(parts: seq<string>)
    ensures forall i | 0 <= i < |NonEmpty(parts)| :: NonEmpty(parts)[i] != "" && NonEmpty(parts)[i] in parts
    ensures forall i | 0 <= i < |parts| :: parts[i] != "" ==> parts[i] in NonEmpty(parts)
  {
    if parts != [] {
      var init, x := parts[..|parts| - 1], parts[|parts| - 1];
      NonEmptyMembers(init);
      assert parts == init + [x];
      var r := NonEmpty(parts);
      forall i | 0 <= i < |parts| && parts[i] != "" ensures parts[i] in r {
        if i < |init| { assert parts[i] == init[i]; }
      }
    }
  }

  /** Kotlin's `String.lastIndexOf(c)`: the last position holding `c`, or -1. */
  function LastIndexOf(s: string, c: char): (k: int)
    ensures -1 <= k < |s|
    ensures k >= 0 ==> s[k] == c
    ensures forall j | k < j < |s| :: s[j] != c
  {
    if s == [] then -1
    else if s[|s| - 1] == c then |s| - 1
    else LastIndexOf(s[..|s| - 1], c)
  }

  lemma JoinAppendToLast(parts: seq<string>, sep: char, c: char)
    requires |parts| >= 1
    ensures Join(parts[..|parts| - 1] + [Last(parts) + [c]], sep) == Join(parts, sep) + [c]
  {
    var q := parts[..|parts| - 1] + [Last(parts) + [c]];
    if |parts| > 1 {
      assert q[..|q| - 1] == parts[..|parts| - 1];
    }
  }

  /** The first `k` pieces, joined and followed by the separator, begin the whole join. */
  lemma {:induction false} JoinPrefix(parts: seq<string>, k: nat, sep: char)
    requires 1 <= k < |parts|
    ensures Join(parts[..k], sep) + [sep] <= Join(parts, sep)
  {
    var init := parts[..|parts| - 1];
    if k < |parts| - 1 {
      JoinPrefix(init, k, sep);
      assert init[..k] == parts[..k];
    } else {
      assert init == parts[..k];
    }
  }

  /** Splitting and joining again on the same character gives back the string. */
  lemma {:induction false} JoinSplit(s: string, sep: char)
    ensures Join(Split(s, sep), sep) == s
  {
    if s != [] {
      var t, c := s[..|s| - 1], s[|s| - 1];
      JoinSplit(t, sep);
      var init := Split(t, sep);
      if c == sep {
        assert (init + [""])[..|init|] == init;
        assert Join(init + [""], sep) == Join(init, sep) + [sep] + "";
      } else {
        JoinAppendToLast(init, sep, c);
      }
      assert s == t + [c];
    }
  }

  /** A string without the separator is a single piece. */
  lemma {:induction false} SplitWithoutSep(s: string, sep: char)
    requires sep !in s
    ensures Split(s, sep) == [s]
  {
    if s != [] {
      var t := s[..|s| - 1];
      assert sep !in t by {
        forall i | 0 <= i < |t| ensures t[i] != sep { assert t[i] == s[i]; }
      }
      SplitWithoutSep(t, sep);
      assert t + [s[|s| - 1]] == s;
    }
  }

  /** One more character either starts a new piece or extends the last one. */
  lemma SplitSnoc(s: string, x: char, sep: char)
    ensures var init := Split(s, sep);
      Split(s + [x], sep) == if x == sep then init + [""] else init[..|init| - 1] + [Last(init) + [x]]
  {
    var t := s + [x];
    assert t[..|t| - 1] == s;
  }

  /** Adding a character after pieces `sb` that follow pieces `sa` touches only `sb`. */
  lemma SnocAfterPieces(sa: seq<string>, sb: seq<string>, x: char, sep: char)
    requires |sb| >= 1
    ensures var init := sa + sb;
      (if x == sep then init + [""] else init[..|init| - 1] + [Last(init) + [x]])
      == sa + (if x == sep then sb + [""] else sb[..|sb| - 1] + [Last(sb) + [x]])
  {
    if x != sep {
      assert (sa + sb)[..|sa + sb| - 1] == sa + sb[..|sb| - 1];
    }
  }

  /** A non-empty `b` is its prefix followed by its last character. */
  lemma LastSplitOff(a: string, b: string)
    requires b != []
    ensures a + b == (a + b[..|b| - 1]) + [b[|b| - 1]]
    ensures b == b[..|b| - 1] + [b[|b| - 1]]
  {
  }

  /** Splitting distributes over a separator placed between two strings. */
  lemma {:induction false} SplitAround(a: string, b: string, sep: char)
    ensures Split(a + [sep] + b, sep) == Split(a, sep) + Split(b, sep)
    decreases |b|
  {
    if b == [] {
      SplitSnoc(a, sep, sep);
      assert a + [sep] + b == a + [sep];
    } else {
      var b', x := b[..|b| - 1], b[|b| - 1];
      var s' := a + [sep] + b';
      SplitAround(a, b', sep);
      LastSplitOff(a + [sep], b);
      SplitSnoc(s', x, sep);
      SplitSnoc(b', x, sep);
      SnocAfterPieces(Split(a, sep), Split(b', sep), x, sep);
    }
  }

  /** Joining pieces free of the separator and splitting again gives back the pieces. */
  lemma {:induction false} SplitJoin(parts: seq<string>, sep: char)
    requires |parts| >= 1
    requires forall i | 0 <= i < |parts| :: sep !in parts[i]
    ensures Split(Join(parts, sep), sep) == parts
  {
    if |parts| == 1 {
      SplitWithoutSep(parts[0], sep);
    } else {
      var init := parts[..|parts| - 1];
      SplitJoin(init, sep);
      SplitAround(Join(init, sep), Last(parts), sep);
      SplitWithoutSep(Last(parts), sep);
      assert init + [Last(parts)] == parts;
    }
  }

  /** Filtering out empty pieces distributes over concatenation. */
  lemma {:induction false} NonEmptyAppend(a: seq<string>, b: seq<string>)
    ensures NonEmpty(a + b) == NonEmpty(a) + NonEmpty(b)
    decreases |b|
  {
    if b != [] {
      var ab := a + b;
      assert ab[..|ab| - 1] == a + b[..|b| - 1];
      NonEmptyAppend(a, b[..|b| - 1]);
    } else {
      assert a + b == a;
    }
  }

  /**
   * What follows the last `c` (the whole string when there is none) is the
   * last piece of `Split(s, c)`: the `lastIndexOf`/`substring` idiom and the
   * `split(...).last()` idiom name the same thing.
   */
  lemma {:induction false} AfterLastIsLastPiece(s: string, c: char)
    ensures Last(Split(s, c)) == s[LastIndexOf(s, c) + 1..]
  {
    if s != [] {
      var t, x := s[..|s| - 1], s[|s| - 1];
      AfterLastIsLastPiece(t, c);
      LastSplitOff([], s);
      SplitSnoc(t, x, c);
      if x != c {
        LastIndexOfSnoc(t, x, c);
      }
    }
  }

  /** A last character other than `c` extends the text after the last `c`. */
  lemma LastIndexOfSnoc(t: string, x: char, c: char)
    requires x != c
    ensures var s := t + [x];
      LastIndexOf(s, c) == LastIndexOf(t, c)
      && s[LastIndexOf(s, c) + 1..] == t[LastIndexOf(t, c) + 1..] + [x]
  {
    var s := t + [x];
    assert s[..|s| - 1] == t;
  }
}
