/** Byte strings: searching, splitting and joining.
    A string stands for its bytes; every character is one byte. */
module Text {
  const NUL: char := '\0'

  datatype Option<+T> = None | Some(value: T)

  /** The position of the first `c` in `s` at or after `i`, or `|s|`. */
  function FindFrom(s: string, c: char, i: nat): (k: nat)
    requires i <= |s|
    ensures i <= k <= |s|
    ensures forall j :: i <= j < k ==> s[j] != c
    ensures k < |s| ==> s[k] == c
    decreases |s| - i
  {
    if i == |s| || s[i] == c then i else FindFrom(s, c, i + 1)
  }

  /** The position of the first `c` in `s`, or `|s|` when there is none. */
  function Find(s: string, c: char): (k: nat)
    ensures k <= |s|
    ensures forall i :: 0 <= i < k ==> s[i] != c
    ensures k < |s| ==> s[k] == c
  {
    FindFrom(s, c, 0)
  }

  /** What a C function sees of the bytes `s`: everything before the first NUL. */
  function CString(s: string): string {
    s[..Find(s, NUL)]
  }

  /** The value `snprintf(field, size, "%s", s)` leaves in a field of `size` bytes. */
  function Fit(s: string, size: nat): string
    requires size > 0
  {
    if |s| < size then s else s[..size - 1]
  }

  function Min(a: nat, b: nat): nat {
    if a < b then a else b
  }

  /** That is the longest prefix that leaves room for the terminator. */
  lemma {:induction false} FitCuts(s: string, size: nat)
    requires size > 0
    ensures Fit(s, size) == s[..Min(|s|, size - 1)]
  {
    assert s[..|s|] == s;
  }

  /** Python's `s.split(c)`: empty pieces are kept, and there is always at least one piece. */
  function SplitOn(s: string, c: char): (parts: seq<string>)
    ensures |parts| >= 1
    decreases |s|
  {
    var k := Find(s, c);
    if k == |s| then [s] else [s[..k]] + SplitOn(s[k + 1..], c)
  }

  /** What repeated calls of C's `strtok` with the delimiter `c` return: runs of delimiters are skipped. */
  function Tokens(s: string, c: char): seq<string>
    decreases |s|
  {
    if s == "" then []
    else if s[0] == c then Tokens(s[1..], c)
    else var k := Find(s, c); [s[..k]] + Tokens(s[k..], c)
  }

  /** Python's `c.join(parts)` for a separator of one character. */
  function Join(parts: seq<string>, c: char): string {
    if parts == [] then ""
    else if |parts| == 1 then parts[0]
    else parts[0] + [c] + Join(parts[1..], c)
  }

  ghost predicate AllFree(parts: seq<string>, c: char) {
    forall i :: 0 <= i < |parts| ==> c !in parts[i]
  }

  function NonEmpty(parts: seq<string>): seq<string> {
    if parts == [] then []
    else if parts[0] == "" then NonEmpty(parts[1..])
    else [parts[0]] + NonEmpty(parts[1..])
  }

  function TotalLength(parts: seq<string>): nat {
    if parts == [] then 0 else |parts[0]| + TotalLength(parts[1..])
  }

  lemma {:induction false} SplitIsFree(s: string, c: char)
    ensures AllFree(SplitOn(s, c), c)
    decreases |s|
  {
    var k := Find(s, c);
    if k < |s| {
      SplitIsFree(s[k + 1..], c);
    }
  }

  lemma {:induction false} SplitOfJoin(parts: seq<string>, c: char)
    requires parts != [] && AllFree(parts, c)
    ensures SplitOn(Join(parts, c), c) == parts
  {
    if |parts| > 1 {
      var rest := Join(parts[1..], c);
      var s := parts[0] + [c] + rest;
      SplitOfJoin(parts[1..], c);
      assert s[|parts[0]|] == c;
      assert Find(s, c) == |parts[0]|;
      assert s[..|parts[0]|] == parts[0] && s[|parts[0]| + 1..] == rest;
    }
  }

  lemma {:induction false} JoinCons(first: string, rest: seq<string>, c: char)
    requires rest != []
    ensures Join([first] + rest, c) == first + [c] + Join(rest, c)
  {
    assert ([first] + rest)[1..] == rest;
  }

  lemma {:induction false} JoinOfSplit(s: string, c: char)
    ensures Join(SplitOn(s, c), c) == s
    decreases |s|
  {
    var k := Find(s, c);
    if k < |s| {
      var first, rest := s[..k], SplitOn(s[k + 1..], c);
      JoinOfSplit(s[k + 1..], c);
      JoinCons(first, rest, c);
      assert s == first + [c] + s[k + 1..];
    }
  }

  /** `strtok` returns exactly the non-empty pieces of a split: the maximal runs free of the delimiter. */
  lemma {:induction false} TokensAreNonEmptyPieces(s: string, c: char)
    ensures Tokens(s, c) == NonEmpty(SplitOn(s, c))
    decreases |s|
  {
    if s != "" {
      var k := Find(s, c);
      if k == |s| {
        assert s[k..] == "";
        assert s[..k] == s;
      } else {
        TokensAreNonEmptyPieces(s[k + 1..], c);
        assert s[k..][1..] == s[k + 1..];
        assert s[0..][1..] == s[1..];
      }
    }
  }

  lemma {:induction false} NonEmptyIsIdentity(parts: seq<string>)
    requires "" !in parts
    ensures NonEmpty(parts) == parts
  {
    if parts != [] {
      NonEmptyIsIdentity(parts[1..]);
    }
  }

  lemma {:induction false} TokensOfJoin(parts: seq<string>, c: char)
    requires AllFree(parts, c) && "" !in parts
    ensures Tokens(Join(parts, c), c) == parts
  {
    if parts != [] {
      SplitOfJoin(parts, c);
      TokensAreNonEmptyPieces(Join(parts, c), c);
      NonEmptyIsIdentity(parts);
    }
  }

  lemma {:induction false} TokensAreFree(s: string, c: char)
    ensures AllFree(Tokens(s, c), c) && "" !in Tokens(s, c)
    decreases |s|
  {
    if s != "" && s[0] == c {
      TokensAreFree(s[1..], c);
    } else if s != "" {
      TokensAreFree(s[Find(s, c)..], c);
    }
  }

  /** Every byte of a token is a byte of the scanned string. */
  lemma {:induction false} TokensAreWithin(s: string, c: char, t: string, x: char)
    requires t in Tokens(s, c) && x in t
    ensures x in s
    decreases |s|
  {
    if s[0] == c {
      TokensAreWithin(s[1..], c, t, x);
    } else {
      var k := Find(s, c);
      if t != s[..k] {
        TokensAreWithin(s[k..], c, t, x);
      }
    }
  }

  lemma {:induction false} JoinOfConcat(a: seq<string>, b: seq<string>, c: char)
    requires a != [] && b != []
    ensures Join(a + b, c) == Join(a, c) + [c] + Join(b, c)
  {
    if |a| == 1 {
      assert (a + b)[1..] == b;
    } else {
      JoinOfConcat(a[1..], b, c);
      assert (a + b)[1..] == a[1..] + b;
    }
  }

  lemma {:induction false} JoinSnoc(parts: seq<string>, last: string, c: char)
    ensures Join(parts + [last], c) == (if parts == [] then last else Join(parts, c) + [c] + last)
    ensures "" !in parts ==> (Join(parts, c) == "" <==> parts == [])
  {
    if parts != [] {
      JoinOfConcat(parts, [last], c);
    }
  }

  lemma {:induction false} JoinLength(parts: seq<string>, c: char)
    ensures |Join(parts, c)| == TotalLength(parts) + (if parts == [] then 0 else |parts| - 1)
  {
    if |parts| > 1 {
      JoinLength(parts[1..], c);
    }
  }

  lemma {:induction false} JoinFree(parts: seq<string>, c: char, x: char)
    requires x != c && AllFree(parts, x)
    ensures x !in Join(parts, c)
  {
    if |parts| > 1 {
      JoinFree(parts[1..], c, x);
    }
  }

  lemma {:induction false} TotalLengthOfConcat(a: seq<string>, b: seq<string>)
    ensures TotalLength(a + b) == TotalLength(a) + TotalLength(b)
  {
    if a == [] {
      assert a + b == b;
    } else {
      TotalLengthOfConcat(a[1..], b);
      assert (a + b)[1..] == a[1..] + b;
    }
  }

  lemma {:induction false} TotalLengthBound(parts: seq<string>, bound: nat)
    requires forall i :: 0 <= i < |parts| ==> |parts[i]| <= bound
    ensures TotalLength(parts) <= bound * |parts|
  {
    if parts != [] {
      TotalLengthBound(parts[1..], bound);
    }
  }

  // ----- the last value of a list of optional values -----

  function LastSome<T>(xs: seq<Option<T>>): Option<T> {
    if xs == [] then None
    else if xs[|xs| - 1].Some? then xs[|xs| - 1]
    else LastSome(xs[..|xs| - 1])
  }

  ghost predicate IsLast<T>(xs: seq<Option<T>>, i: int) {
    0 <= i < |xs| && xs[i].Some? && forall j :: i < j < |xs| ==> xs[j].None?
  }

  lemma {:induction false} LastSomeIsLast<T>(xs: seq<Option<T>>)
    ensures LastSome(xs) == None <==> forall i :: 0 <= i < |xs| ==> xs[i].None?
    ensures LastSome(xs) != None ==> exists i :: IsLast(xs, i)
    ensures forall i :: IsLast(xs, i) ==> LastSome(xs) == xs[i]
  {
    if xs != [] {
      var n := |xs| - 1;
      var front := xs[..n];
      LastSomeIsLast(front);
      if xs[n].Some? {
        assert IsLast(xs, n);
      } else {
        assert forall i :: IsLast(xs, i) <==> IsLast(front, i);
      }
    }
  }
}
