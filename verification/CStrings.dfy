/** The C string routines the firmware uses, over byte buffers. */
module CStrings {
  import opened Text

  ghost predicate Terminated(buffer: array<char>, p: nat)
    reads buffer
  {
    p <= buffer.Length && Find(buffer[p..], NUL) < buffer.Length - p
  }

  /** The C string that starts at offset `p`. */
  ghost function At(buffer: array<char>, p: nat): string
    requires p <= buffer.Length
    reads buffer
  {
    CString(buffer[p..])
  }

  function Zeros(n: nat): (z: string)
    ensures |z| == n && forall i :: 0 <= i < n ==> z[i] == NUL
  {
    seq(n, _ => NUL)
  }

  lemma {:induction false} CStringOf(text: string, tail: string)
    requires NUL !in text && NUL in tail && tail[0] == NUL
    ensures CString(text + tail) == text
  {
    assert (text + tail)[|text|] == NUL;
    assert Find(text + tail, NUL) == |text|;
  }

  /** `memset` to zero followed by `memcpy` to the front of the buffer. */
  method Fill(buffer: array<char>, bytes: string)
    requires |bytes| <= buffer.Length
    modifies buffer
    ensures buffer[..] == bytes + Zeros(buffer.Length - |bytes|)
  {
    forall i | 0 <= i < buffer.Length {
      buffer[i] := NUL;
    }
    forall i | 0 <= i < |bytes| {
      buffer[i] := bytes[i];
    }
  }

  method StrChr(buffer: array<char>, p: nat, c: char) returns (at: int)
    requires Terminated(buffer, p) && c != NUL
    ensures c in At(buffer, p) ==> at == p + Find(At(buffer, p), c)
    ensures c !in At(buffer, p) ==> at == -1
  {
    ghost var s := buffer[p..];
    ghost var text := At(buffer, p);
    at := p;
    while buffer[at] != NUL
      invariant p <= at <= p + |text|
      invariant forall i :: 0 <= i < at - p ==> text[i] != c
      decreases p + |text| - at
    {
      assert buffer[at] == s[at - p];
      if buffer[at] == c {
        assert text[at - p] == c;
        return;
      }
      at := at + 1;
    }
    assert at == p + |text| by { assert buffer[at] == s[at - p]; }
    at := -1;
  }

  /** The value of the C string a pointer stands for. */
  method Read(buffer: array<char>, p: nat) returns (text: string)
    requires Terminated(buffer, p)
    ensures text == At(buffer, p)
  {
    var end := p;
    while buffer[end] != NUL
      invariant p <= end <= p + |At(buffer, p)|
      decreases buffer.Length - end
    {
      assert buffer[p..][end - p] == buffer[end];
      end := end + 1;
    }
    assert buffer[p..][end - p] == buffer[end];
    text := buffer[p..end];
  }

  method StrCat(buffer: array<char>, text: string)
    requires Terminated(buffer, 0) && NUL !in text
    requires |At(buffer, 0)| + |text| < buffer.Length
    modifies buffer
    ensures Terminated(buffer, 0) && At(buffer, 0) == old(At(buffer, 0)) + text
  {
    ghost var front := At(buffer, 0);
    assert buffer[0..] == buffer[..];
    var end := 0;
    while buffer[end] != NUL
      invariant 0 <= end <= |front|
      decreases |front| - end
    {
      end := end + 1;
    }
    forall i | 0 <= i < |text| {
      buffer[end + i] := text[i];
    }
    buffer[end + |text|] := NUL;
    assert buffer[0..] == front + text + buffer[end + |text|..];
    CStringOf(front + text, buffer[end + |text|..]);
  }

  /** One round of the join loop: a comma when the buffer is not empty, then the text. */
  method AppendJoined(buffer: array<char>, text: string, ghost done: seq<string>)
    requires Terminated(buffer, 0) && At(buffer, 0) == Join(done, ',')
    requires NUL !in text && |Join(done, ',')| + 1 + |text| < buffer.Length
    requires "" !in done
    modifies buffer
    ensures Terminated(buffer, 0) && At(buffer, 0) == Join(done + [text], ',')
  {
    JoinSnoc(done, text, ',');
    var joined := Read(buffer, 0);
    if |joined| > 0 {
      StrCat(buffer, ",");
    }
    StrCat(buffer, text);
  }

  /** `*at = '\0'` inside the C string at `p`: what is left before and after the cut. */
  method Cut(buffer: array<char>, p: nat, at: nat)
    requires Terminated(buffer, p) && p <= at < p + |At(buffer, p)|
    modifies buffer
    ensures Terminated(buffer, p) && At(buffer, p) == old(At(buffer, p))[..at - p]
    ensures Terminated(buffer, at + 1) && At(buffer, at + 1) == old(At(buffer, p))[at + 1 - p..]
    ensures forall i :: 0 <= i < buffer.Length && i != at ==> buffer[i] == old(buffer[i])
  {
    ghost var text := At(buffer, p);
    AtTail(buffer, p, at + 1 - p);
    ghost var tail := buffer[at + 1..];
    buffer[at] := NUL;
    assert buffer[at + 1..] == tail;
    assert buffer[p..] == text[..at - p] + buffer[at..];
    CStringOf(text[..at - p], buffer[at..]);
  }

  lemma {:induction false} AtTail(buffer: array<char>, p: nat, k: nat)
    requires Terminated(buffer, p) && k <= |At(buffer, p)|
    ensures Terminated(buffer, p + k) && At(buffer, p + k) == At(buffer, p)[k..]
  {
    var text := At(buffer, p);
    var zero := buffer[p + |text|..];
    assert zero[0] == NUL;
    assert buffer[p + k..] == text[k..] + zero;
    CStringOf(text[k..], zero);
  }

  /** After `Fill`, the buffer reads as the bytes before the first NUL. */
  lemma {:induction false} CStringOfLoaded(bytes: string, zeros: string)
    requires zeros != "" && forall i :: 0 <= i < |zeros| ==> zeros[i] == NUL
    ensures CString(bytes + zeros) == CString(bytes)
    ensures Find(bytes + zeros, NUL) < |bytes + zeros|
  {
    var text := CString(bytes);
    assert NUL !in text;
    var tail := bytes[|text|..] + zeros;
    assert bytes + zeros == text + tail && tail[0] == NUL;
    CStringOf(text, tail);
  }

  /** The two characters a command is recognised by. */
  lemma {:induction false} Peek(buffer: array<char>, p: nat)
    requires Terminated(buffer, p) && At(buffer, p) != ""
    ensures p + 1 < buffer.Length && buffer[p] == At(buffer, p)[0]
    ensures buffer[p + 1] == (if |At(buffer, p)| > 1 then At(buffer, p)[1] else NUL)
  {
    assert buffer[p] == buffer[p..][0] && buffer[p + 1] == buffer[p..][1];
  }

  /** Skips delimiters: the first half of a `strtok` call. */
  method SkipDelimiters(buffer: array<char>, p: nat, delimiter: char) returns (start: nat)
    requires Terminated(buffer, p) && delimiter != NUL
    ensures p <= start && Terminated(buffer, start) && buffer[start] != delimiter
    ensures Tokens(At(buffer, start), delimiter) == Tokens(At(buffer, p), delimiter)
  {
    start := p;
    while buffer[start] == delimiter
      invariant p <= start && Terminated(buffer, start)
      invariant Tokens(At(buffer, start), delimiter) == Tokens(At(buffer, p), delimiter)
      decreases buffer.Length - start
    {
      assert buffer[start..][1..] == buffer[start + 1..];
      assert At(buffer, start)[1..] == At(buffer, start + 1);
      start := start + 1;
    }
  }

  /** Finds the end of the token at `p`: the second half of a `strtok` call. */
  method TokenEnd(buffer: array<char>, p: nat, delimiter: char) returns (stop: nat)
    requires Terminated(buffer, p) && delimiter != NUL
    ensures p <= stop && Terminated(buffer, stop)
    ensures stop == p + Find(At(buffer, p), delimiter)
    ensures buffer[stop] == (if delimiter in At(buffer, p) then delimiter else NUL)
  {
    ghost var text := At(buffer, p);
    stop := p;
    while buffer[stop] != delimiter && buffer[stop] != NUL
      invariant p <= stop <= p + |text|
      invariant forall i :: 0 <= i < stop - p ==> text[i] != delimiter
      decreases p + |text| - stop
    {
      assert buffer[p..][stop - p] == buffer[stop];
      stop := stop + 1;
    }
    assert buffer[p..][stop - p] == buffer[stop];
    assert NUL !in text;
    assert buffer[p..][|text|] == NUL;
    assert buffer[p + |text|] == NUL;
    assert buffer[stop..][p + |text| - stop] == NUL;
  }

  /** Cutting a C string at the end of its first token leaves that token, and the rest after it. */
  lemma {:induction false} CutAfterToken(bytes: string, cut: string, delimiter: char)
    requires delimiter != NUL && Find(bytes, NUL) < |bytes| && bytes[0] != delimiter && bytes[0] != NUL
    requires var stop := Find(CString(bytes), delimiter);
             cut == if bytes[stop] == delimiter then bytes[stop := NUL] else bytes
    ensures var text := CString(bytes);
            var stop := Find(text, delimiter);
            var next := if bytes[stop] == delimiter then stop + 1 else stop;
            CString(cut) == text[..stop] && Find(cut, NUL) < |cut| && Find(cut[next..], NUL) < |cut[next..]| &&
            Tokens(text, delimiter) == [CString(cut)] + Tokens(CString(cut[next..]), delimiter)
  {
    var text := CString(bytes);
    var stop := Find(text, delimiter);
    assert bytes[|text|] == NUL;
    assert cut[stop] == NUL;
    assert Find(cut, NUL) == stop;
    if stop < |text| {
      RestAfterToken(bytes, cut, stop);
      assert text[stop..][1..] == text[stop + 1..];
    } else {
      assert cut[stop..][0] == NUL;
      assert text[stop..] == "";
    }
  }

  lemma {:induction false} RestAfterToken(bytes: string, cut: string, stop: nat)
    requires stop < Find(bytes, NUL) < |bytes| && cut == bytes[stop := NUL]
    ensures CString(cut[stop + 1..]) == CString(bytes)[stop + 1..]
    ensures Find(cut[stop + 1..], NUL) < |cut[stop + 1..]|
  {
    var text := CString(bytes);
    var rest, zero := text[stop + 1..], bytes[|text|..];
    assert zero[0] == NUL;
    assert cut[stop + 1..] == rest + zero;
    CStringOf(rest, zero);
    assert (rest + zero)[|rest|] == NUL;
  }

  /** Cuts a C string in place at one of its characters and reads both halves. */
  method CutInTwo(buffer: array<char>, p: nat, at: nat) returns (front: string, back: string)
    requires Terminated(buffer, p) && p <= at < p + |At(buffer, p)|
    modifies buffer
    ensures front == old(At(buffer, p))[..at - p] && back == old(At(buffer, p))[at + 1 - p..]
    ensures NUL !in front && NUL !in back
    ensures forall i :: 0 <= i < buffer.Length && i != at ==> buffer[i] == old(buffer[i])
  {
    Cut(buffer, p, at);
    front := Read(buffer, p);
    back := Read(buffer, at + 1);
  }

  /** `strtok` and its saved pointer (section 7.24.5.8 of ISO C11).
      Constructing a scanner is the start of the first call; `Next` is each call. */
  class Scanner {
    const buffer: array<char>
    var saved: nat

    ghost predicate Valid()
      reads this, buffer
    {
      Terminated(buffer, saved)
    }

    /** The text the following calls will scan. */
    ghost function Rest(): string
      requires Valid()
      reads this, buffer
    {
      At(buffer, saved)
    }

    /** The scan has produced `token`, and `pending` are this token and those still to come. */
    ghost predicate Scanning(token: int, delimiter: char, pending: seq<string>)
      reads this, buffer
    {
      && Valid()
      && "" !in pending
      && (token < 0 ==> pending == [])
      && (token >= 0 ==>
          && Terminated(buffer, token)
          && token + |At(buffer, token)| <= saved
          && pending == [At(buffer, token)] + Tokens(Rest(), delimiter))
    }

    constructor (buffer: array<char>)
      requires Terminated(buffer, 0)
      ensures Valid() && this.buffer == buffer && saved == 0
    {
      this.buffer := buffer;
      saved := 0;
    }

    /** One call. The token is an offset into the buffer, or -1 for NULL. The delimiter after the token
        becomes NUL; nothing at or after the new saved pointer changes. */
    method Next(delimiter: char) returns (token: int)
      requires Valid() && delimiter != NUL
      modifies this`saved, buffer
      ensures Valid()
      ensures token == -1 <==> Tokens(old(Rest()), delimiter) == []
      ensures token == -1 || old(saved) <= token <= saved
      ensures token >= 0 ==> Terminated(buffer, token)
      ensures token >= 0 ==> Tokens(old(Rest()), delimiter) == [At(buffer, token)] + Tokens(Rest(), delimiter)
      ensures token >= 0 ==> token + |At(buffer, token)| <= saved
      ensures buffer[saved..] == old(buffer[..])[saved..]
    {
      var start := SkipDelimiters(buffer, saved, delimiter);
      ghost var text := At(buffer, start);
      if buffer[start] == NUL {
        assert text == "";
        saved := start;
        return -1;
      }
      token := start;
      var stop := TokenEnd(buffer, start, delimiter);
      ghost var bytes := buffer[start..];
      assert bytes[stop - start] == buffer[stop];
      saved := stop;
      if buffer[stop] == delimiter {
        buffer[stop] := NUL;
        saved := stop + 1;
      }
      ghost var cut := buffer[start..];
      assert cut == (if bytes[stop - start] == delimiter then bytes[stop - start := NUL] else bytes);
      CutAfterToken(bytes, cut, delimiter);
      assert cut[saved - start..] == buffer[saved..];
      assert Tokens(text, delimiter) == [At(buffer, token)] + Tokens(Rest(), delimiter);
    }
  }

  /** The first call of a scan. */
  method FirstToken(buffer: array<char>, delimiter: char) returns (scanner: Scanner, token: int)
    requires Terminated(buffer, 0) && delimiter != NUL
    modifies buffer
    ensures fresh(scanner) && scanner.buffer == buffer
    ensures scanner.Scanning(token, delimiter, Tokens(old(At(buffer, 0)), delimiter))
  {
    TokensAreFree(At(buffer, 0), delimiter);
    scanner := new Scanner(buffer);
    token := scanner.Next(delimiter);
  }
}
