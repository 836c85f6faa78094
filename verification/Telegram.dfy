/** What a Telegram message means to the server, said by its characters and its date. */
module Telegram {
  import opened Text
  import opened Decimal
  import opened PythonText
  import opened Codec
  import opened Dictionaries
  import opened UpdateServer
  import opened PollProperties
  import opened PollRuns

  // ----- the format -----

  /** The text, trimmed, is "config " in any letter case, then the password, a space, the key, a space, the value. */
  predicate IsConfig(text: string, password: string, key: string, value: string) {
    var t := Strip(text);
    && |t| >= 7 && IsInAnyCase(t[..7], "config ", "CONFIG ")
    && t[7..] == password + " " + key + " " + value
  }

  /** The message is dated, and later than the last update. */
  predicate IsNew(s: ServerState, u: Update) {
    u.date != 0 && s.lastUpdate < u.date
  }

  lemma {:induction false} LowerOfConfig(t: string)
    ensures "config " <= Lower(t) <==> |t| >= 7 && IsInAnyCase(t[..7], "config ", "CONFIG ")
  {
    if |t| >= 7 {
      LowerOfLetters(t[..7], "config ", "CONFIG ");
      assert Lower(t)[..7] == Lower(t[..7]);
    }
  }

  lemma {:induction false} LowerOfLetters(t: string, small: string, capital: string)
    requires |small| == |capital| && Lower(capital) == small
    requires forall i :: 0 <= i < |small| ==> (small[i] == capital[i] <==> !('a' <= small[i] <= 'z'))
    ensures Lower(t) == small <==> IsInAnyCase(t, small, capital)
  {
    if IsInAnyCase(t, small, capital) {
      forall i | 0 <= i < |t| ensures Lower(t)[i] == small[i] {
        assert Lower(capital)[i] == LowerChar(capital[i]);
      }
    }
    if Lower(t) == small {
      forall i | 0 <= i < |t| ensures t[i] == small[i] || t[i] == capital[i] {
        assert LowerChar(t[i]) == small[i] == LowerChar(capital[i]);
      }
    }
  }

  lemma {:induction false} ThreeSpaces(t: string, limit: nat)
    requires limit > 0 && |SplitAtMost(t, ' ', limit)| > 1
    ensures var k := Find(t, ' ');
      k < |t| && t == SplitAtMost(t, ' ', limit)[0] + " " + t[k + 1..] && ' ' !in SplitAtMost(t, ' ', limit)[0]
    ensures SplitAtMost(t, ' ', limit)[1..] == SplitAtMost(t[Find(t, ' ') + 1..], ' ', limit - 1)
  {
  }

  /** A text that splits into four parts is these parts with single spaces between, and only the last may hold more. */
  lemma {:induction false} FourPartsOnly(t: string)
    requires |SplitAtMost(t, ' ', 3)| == 4
    ensures var p := SplitAtMost(t, ' ', 3);
      t == p[0] + " " + (p[1] + " " + (p[2] + " " + p[3])) && ' ' !in p[0] && ' ' !in p[1] && ' ' !in p[2]
  {
    var b := t[Find(t, ' ') + 1..];
    ThreeSpaces(t, 3);
    var c := b[Find(b, ' ') + 1..];
    ThreeSpaces(b, 2);
    ThreeSpaces(c, 1);
  }

  /** Which texts are configs, and what they hold: the text is in the format, and neither password nor key holds a
      space. */
  lemma {:induction false} ConfigExactly(text: string, password: string, key: string, value: string)
    ensures ConfigOf(text) == Some(ConfigText(password, key, value)) <==>
      IsConfig(text, password, key, value) && ' ' !in password && ' ' !in key
  {
    var t := Strip(text);
    LowerOfConfig(t);
    if |t| >= 7 && IsInAnyCase(t[..7], "config ", "CONFIG ") {
      var head := t[..6];
      assert t[6] == t[..7][6] == ' ' && forall i :: 0 <= i < 6 ==> head[i] == t[..7][i] != ' ';
      assert t == head + " " + t[7..];
      ConfigParts(t, head, password, key, value);
    }
  }

  lemma {:induction false} ConfigParts(t: string, head: string, password: string, key: string, value: string)
    requires ' ' !in head && |t| > |head| && t == head + " " + t[|head| + 1..]
    ensures SplitAtMost(t, ' ', 3) == [head, password, key, value] <==>
      t[|head| + 1..] == password + " " + key + " " + value && ' ' !in password && ' ' !in key
    ensures |SplitAtMost(t, ' ', 3)| == 4 ==> SplitAtMost(t, ' ', 3)[0] == head
  {
    var rest := t[|head| + 1..];
    FirstPart(head, rest, 3);
    Grouped(password, key, value);
    if rest == password + " " + (key + " " + value) && ' ' !in password && ' ' !in key {
      FourParts(head, password, key, value);
    }
    if |SplitAtMost(t, ' ', 3)| == 4 {
      FourPartsOnly(t);
      var p := SplitAtMost(t, ' ', 3);
      AfterHead(head, rest, p[1] + " " + (p[2] + " " + p[3]));
    }
  }

  lemma {:induction false} Grouped(a: string, b: string, c: string)
    ensures a + " " + b + " " + c == a + " " + (b + " " + c)
  {
  }

  lemma {:induction false} AfterHead(head: string, x: string, y: string)
    requires head + " " + x == head + " " + y
    ensures x == y
  {
    assert (head + " " + x)[|head| + 1..] == x && (head + " " + y)[|head| + 1..] == y;
  }

  // ----- requests -----

  /** What is accepted as a request for an interval: a new message in the format, with the server's password, the key
      "interval" and a number from 1 to 120. A password with a space in it can never be given. */
  lemma {:induction false} IntervalExactly(s: ServerState, u: Update, n: int)
    ensures IntervalRequest(s, u) == Some(n) <==>
      && IsNew(s, u) && ' ' !in s.password && 1 <= n <= 120
      && exists value :: IsConfig(u.text, s.password, "interval", value) && ToInt(value) == Some(n)
  {
    if IntervalRequest(s, u) == Some(n) {
      ConfigExactly(u.text, s.password, "interval", ConfigOf(u.text).value.value);
    }
    if ' ' !in s.password &&
       exists value :: IsConfig(u.text, s.password, "interval", value) && ToInt(value) == Some(n) {
      var value :| IsConfig(u.text, s.password, "interval", value) && ToInt(value) == Some(n);
      assert ' ' !in "interval";
      ConfigExactly(u.text, s.password, "interval", value);
    }
  }

  /** The same for the feedback, whose value is "0" or "1". */
  lemma {:induction false} FeedbackExactly(s: ServerState, u: Update, value: string)
    ensures FeedbackRequest(s, u) == Some(value) <==>
      IsNew(s, u) && ' ' !in s.password && value in {"0", "1"} && IsConfig(u.text, s.password, "feedback", value)
  {
    assert ' ' !in "feedback" && |"feedback"| == 8;
    ConfigExactly(u.text, s.password, "feedback", value);
    if FeedbackRequest(s, u) == Some(value) {
      assert ConfigOf(u.text) == Some(ConfigText(s.password, "feedback", value));
    }
  }

  /** Whatever settings a poll sends: some message of it is new, in the format, with the server's password and with
      the setting's key, and its value is what is sent. */
  lemma {:induction false} SettingsWereAuthorised(s: ServerState, us: seq<Update>)
    ensures Fold(s, us).interval.Some? ==>
      exists u, value :: u in us && IsNew(s, u) && IsConfig(u.text, s.password, "interval", value) &&
        ToInt(value) == Fold(s, us).interval
    ensures Fold(s, us).feedback.Some? ==>
      exists u :: u in us && IsNew(s, u) && IsConfig(u.text, s.password, "feedback", Fold(s, us).feedback.value)
  {
    SettingsAreLast(s, us);
    LastSomeIsLast(NewIntervals(s, us));
    LastSomeIsLast(NewFeedbacks(s, us));
    if Fold(s, us).interval.Some? {
      var i :| IsLast(NewIntervals(s, us), i);
      IntervalExactly(s, us[i], Fold(s, us).interval.value);
      assert us[i] in us;
    }
    if Fold(s, us).feedback.Some? {
      var i :| IsLast(NewFeedbacks(s, us), i);
      FeedbackExactly(s, us[i], Fold(s, us).feedback.value);
      assert us[i] in us;
    }
  }

  /** The text, trimmed, starts with "config " in any letter case, and its second word is this one. */
  predicate HasPassword(text: string, password: string) {
    var t := Strip(text);
    && ' ' !in password && |t| >= 7 + |password| + 1 && IsInAnyCase(t[..7], "config ", "CONFIG ")
    && t[7..][..|password| + 1] == password + " "
  }

  /** A config message with another password changes no setting, whatever it asks for and wherever it stands. */
  lemma {:induction false} OtherPasswordIsIgnored(s: ServerState, us: seq<Update>, u: Update, other: string)
    requires HasPassword(u.text, other) && other != s.password
    ensures Fold(s, us + [u]).interval == Fold(s, us).interval && Fold(s, us + [u]).feedback == Fold(s, us).feedback
  {
    var t := Strip(u.text);
    assert (us + [u])[..|us|] == us;
    if ConfigOf(u.text).Some? {
      var c := ConfigOf(u.text).value;
      ConfigExactly(u.text, c.password, c.name, c.value);
      assert t[7..] == c.password + " " + (c.name + " " + c.value);
      assert t[7..] == other + " " + t[7..][|other| + 1..];
      SameWord(other, t[7..][|other| + 1..], c.password, c.name + " " + c.value);
      assert Authorised(s, u) == None;
    }
  }

  lemma {:induction false} SameWord(a: string, x: string, b: string, y: string)
    requires ' ' !in a && ' ' !in b && a + " " + x == b + " " + y
    ensures a == b
  {
    var s := a + " " + x;
    assert s[|a|] == ' ' && s[..|a|] == a && Find(s, ' ') == |a|;
    assert s[|b|] == ' ' && s[..|b|] == b && Find(s, ' ') == |b|;
  }

  // ----- leaving and joining -----

  /** A removal is a new message that is "remove me" in any letter case, with whitespace around it. */
  lemma {:induction false} RemovalExactly(s: ServerState, u: Update)
    ensures IsRemoval(s, u) <==> IsNew(s, u) && IsInAnyCase(Strip(u.text), "remove me", "REMOVE ME")
  {
    LowerOfLetters(Strip(u.text), "remove me", "REMOVE ME");
  }

  /** What registers a chat: a text that is not all whitespace, an id and a first name, and no removal. */
  lemma {:induction false} RegistersExactly(s: ServerState, u: Update)
    ensures Registers(s, u) <==>
      && (exists i :: 0 <= i < |u.text| && !IsSpace(u.text[i])) && u.chatId != 0 && u.firstName != ""
      && !(IsNew(s, u) && IsInAnyCase(Strip(u.text), "remove me", "REMOVE ME"))
  {
    RemovalExactly(s, u);
    var front, back := StripTrims(u.text);
  }
}
