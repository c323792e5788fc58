/** String helpers the watcher relies on: padding as done by `%*s`,
    `strings.Join`, its inverse `Split`, and decimal rendering of naturals.
    Every character stands for one byte. */
module Text {

  /** `n` spaces. */
  function Spaces(n: nat): (s: string)
    ensures |s| == n
    ensures forall i :: 0 <= i < n ==> s[i] == ' '
  {
    if n == 0 then "" else Spaces(n - 1) + " "
  }

  /** `s` right-aligned in a field of at least `width` characters, the way
      `fmt` formats `%*s` with a non-negative width: spaces go on the left,
      and `s` is never cut. */
  function PadLeft(s: string, width: nat): (r: string)
    ensures |r| == if |s| < width then width else |s|
    ensures r[|r| - |s|..] == s
    ensures forall i :: 0 <= i < |r| - |s| ==> r[i] == ' '
  {
    if |s| < width then Spaces(width - |s|) + s else s
  }

  /** `strings.Join`: the words with `sep` between consecutive ones. */
  function Join(words: seq<string>, sep: string): string
    decreases |words|
  {
    if |words| == 0 then ""
    else if |words| == 1 then words[0]
    else words[0] + sep + Join(words[1..], sep)
  }

  /** `strings.Split` on a one-character separator: the maximal pieces of
      `s` between occurrences of `c` (always at least one piece). */
  function Split(s: string, c: char): (pieces: seq<string>)
    ensures |pieces| >= 1
    decreases |s|
  {
    if |s| == 0 then [""]
    else
      var rest := Split(s[1..], c);
      if s[0] == c then [""] + rest
      else [[s[0]] + rest[0]] + rest[1..]
  }

  /** A piece that holds no separator splits to itself. */
  lemma {:induction false} SplitWord(w: string, c: char)
    requires c !in w
    ensures Split(w, c) == [w]
    decreases |w|
  {
    if |w| > 0 {
      assert c !in w[1..] by {
        forall i | 0 <= i < |w[1..]| ensures w[1..][i] != c {
          assert w[1..][i] == w[i + 1];
        }
      }
      SplitWord(w[1..], c);
      assert [w[0]] + w[1..] == w;
    }
  }

  /** Splitting a word, the separator and a tail yields the word followed
      by the pieces of the tail. */
  lemma {:induction false} SplitCons(w: string, c: char, t: string)
    requires c !in w
    ensures Split(w + [c] + t, c) == [w] + Split(t, c)
    decreases |w|
  {
    var s := w + [c] + t;
    if |w| == 0 {
      assert s[1..] == t;
    } else {
      assert c !in w[1..] by {
        forall i | 0 <= i < |w[1..]| ensures w[1..][i] != c {
          assert w[1..][i] == w[i + 1];
        }
      }
      assert s[1..] == w[1..] + [c] + t;
      SplitCons(w[1..], c, t);
      assert [w[0]] + w[1..] == w;
    }
  }

  /** Splitting on `c` undoes joining with `c`, for a non-empty list of
      words none of which contains `c`. */
  lemma {:induction false} SplitJoin(words: seq<string>, c: char)
    requires |words| >= 1
    requires forall i :: 0 <= i < |words| ==> c !in words[i]
    ensures Split(Join(words, [c]), c) == words
    decreases |words|
  {
    if |words| == 1 {
      SplitWord(words[0], c);
    } else {
      SplitJoin(words[1..], c);
      SplitCons(words[0], c, Join(words[1..], [c]));
      assert [words[0]] + words[1..] == words;
    }
  }

  /** Joining the pieces of `s` with `c` gives `s` back, for every `s`. */
  lemma {:induction false} JoinSplit(s: string, c: char)
    ensures Join(Split(s, c), [c]) == s
    decreases |s|
  {
    if |s| > 0 {
      var rest := Split(s[1..], c);
      JoinSplit(s[1..], c);
      if s[0] == c {
        assert Split(s, c) == [""] + rest;
        assert ([""] + rest)[1..] == rest;
      } else {
        var pieces := [[s[0]] + rest[0]] + rest[1..];
        assert Split(s, c) == pieces;
        if |rest| == 1 {
          assert Join(pieces, [c]) == [s[0]] + rest[0];
        } else {
          assert pieces[1..] == rest[1..];
          assert Join(rest, [c]) == rest[0] + [c] + Join(rest[1..], [c]);
        }
      }
    }
  }

  /** The ASCII digit for `d`. */
  function Digit(d: nat): (ch: char)
    requires d < 10
    ensures '0' <= ch <= '9'
    ensures ch as int - '0' as int == d
  {
    (d + '0' as int) as char
  }

  predicate IsDigits(s: string) {
    forall i :: 0 <= i < |s| ==> '0' <= s[i] <= '9'
  }

  /** The value of a string of decimal digits. */
  function DecimalValue(s: string): nat
    requires IsDigits(s)
    decreases |s|
  {
    if |s| == 0 then 0
    else DecimalValue(s[..|s| - 1]) * 10 + (s[|s| - 1] as int - '0' as int)
  }

  /** The shortest decimal rendering of `n`, as `%d` writes it. */
  function Decimal(n: nat): (s: string)
    ensures |s| >= 1 && IsDigits(s)
    ensures |s| > 1 ==> s[0] != '0'
    ensures DecimalValue(s) == n
    decreases n
  {
    if n < 10 then [Digit(n)]
    else
      var s := Decimal(n / 10) + [Digit(n % 10)];
      assert s[..|s| - 1] == Decimal(n / 10);
      s
  }
}
