/** The commands in a payload and what they do to the board's settings. */
module Commands {
  import opened Text
  import opened Decimal
  import opened ChatTable

  const COAP_UPDATE_SIZE: nat := 6 + 3 + (2 + CHAT_ID_LENGTH) + MAX_CHAT_IDS * (CHAT_NAME_LENGTH + CHAT_ID_LENGTH + 1)

  const MESSAGES_SENT := "Messages sent successfully"
  const NO_UPDATES := "No Updates"

  datatype Command =
    | SetInterval(minutes: nat)
    | SetFeedback(on: bool)
    | AddChat(name: string, id: string)
    | DropChat(key: string)
    | Ignored

  datatype Settings = Settings(interval: int, feedback: bool, table: seq<Slot>)

  /** The first two characters that make a token something other than a chat. */
  predicate IsReserved(token: string) {
    |token| >= 2 &&
    (|| (token[0] == 'f' && (token[1] == '0' || token[1] == '1'))
     || (token[0] == 'i' && IsDigit(token[1]))
     || (token[0] == 'r' && IsDigit(token[1])))
  }

  function ParseCommand(token: string): Command {
    if IsReserved(token) then
      if token[0] == 'f' then SetFeedback(Atoi(token[1..]) != 0)
      else if token[0] == 'i' then SetInterval(Atoi(token[1..]))
      else DropChat(token[1..])
    else
      var colon := Find(token, ':');
      if colon < |token| then AddChat(token[..colon], token[colon + 1..]) else Ignored
  }

  function ParseAll(tokens: seq<string>): seq<Command> {
    if tokens == [] then [] else [ParseCommand(tokens[0])] + ParseAll(tokens[1..])
  }

  function Execute(s: Settings, c: Command): Settings {
    match c
    case SetInterval(n) => s.(interval := n)
    case SetFeedback(on) => s.(feedback := on)
    case AddChat(name, id) => s.(table := SetChat(s.table, name, id))
    case DropChat(key) => s.(table := RemoveChat(s.table, key))
    case Ignored => s
  }

  function ExecuteAll(s: Settings, commands: seq<Command>): Settings
    decreases |commands|
  {
    if commands == [] then s else ExecuteAll(Execute(s, commands[0]), commands[1..])
  }

  predicate IsStatus(text: string) {
    text == MESSAGES_SENT || text == NO_UPDATES
  }

  /** The commands a delivered payload carries. Only the bytes before a NUL count; a payload that does
      not fit the response buffer carries none. */
  function CommandsIn(payload: string): seq<Command> {
    var text := CString(payload);
    if |payload| >= COAP_UPDATE_SIZE || IsStatus(text) then [] else ParseAll(Tokens(text, ';'))
  }

  lemma {:induction false} ExecuteConcat(s: Settings, a: seq<Command>, b: seq<Command>)
    ensures ExecuteAll(s, a + b) == ExecuteAll(ExecuteAll(s, a), b)
    decreases |a|
  {
    if a == [] {
      assert a + b == b;
    } else {
      assert (a + b)[1..] == a[1..] + b;
      ExecuteConcat(Execute(s, a[0]), a[1..], b);
    }
  }

  lemma {:induction false} ParseConcat(a: seq<string>, b: seq<string>)
    ensures ParseAll(a + b) == ParseAll(a) + ParseAll(b)
  {
    if a == [] {
      assert a + b == b;
    } else {
      assert (a + b)[1..] == a[1..] + b;
      ParseConcat(a[1..], b);
    }
  }

  // ----- the commands, token by token -----

  /** A token that starts with a letter and digits, whatever follows, is a setting or a removal. */
  lemma {:induction false} SettingTokens(digits: string, rest: string)
    requires digits != "" && AllDigits(digits) && (rest == "" || !IsDigit(rest[0]))
    ensures ParseCommand("i" + digits + rest) == SetInterval(Value(digits, |digits|))
    ensures ParseCommand("r" + digits + rest) == DropChat(digits + rest)
    ensures digits[0] == '0' || digits[0] == '1' ==>
      ParseCommand("f" + digits + rest) == SetFeedback(Value(digits, |digits|) != 0)
  {
    AtoiReadsDigits(digits, rest);
    assert ("i" + digits + rest)[1..] == digits + rest && ("i" + digits + rest)[1] == digits[0];
    assert ("r" + digits + rest)[1..] == digits + rest && ("r" + digits + rest)[1] == digits[0];
    assert ("f" + digits + rest)[1..] == digits + rest && ("f" + digits + rest)[1] == digits[0];
  }

  /** Any other token is a chat when it has a colon, split at the first one, and nothing when it has none. */
  lemma {:induction false} OtherTokens(token: string, name: string, id: string)
    requires |token| >= 2 ==>
      && !(token[0] == 'f' && (token[1] == '0' || token[1] == '1'))
      && !((token[0] == 'i' || token[0] == 'r') && '0' <= token[1] <= '9')
    ensures ':' !in name && token == name + ":" + id ==> ParseCommand(token) == AddChat(name, id)
    ensures ':' !in token ==> ParseCommand(token) == Ignored
  {
    if ':' !in name && token == name + ":" + id {
      assert token[|name|] == ':';
      assert Find(token, ':') == |name|;
      assert token[..|name|] == name && token[|name| + 1..] == id;
    }
  }

  /** What the board then does: exactly one thing, whatever the number. */
  lemma {:induction false} SettingTokensSet(s: Settings, digits: string, rest: string)
    requires digits != "" && AllDigits(digits) && (rest == "" || !IsDigit(rest[0]))
    ensures Execute(s, ParseCommand("i" + digits + rest)) == Settings(Value(digits, |digits|), s.feedback, s.table)
    ensures Execute(s, ParseCommand("r" + digits + rest)) ==
      Settings(s.interval, s.feedback, RemoveChat(s.table, digits + rest))
    ensures digits[0] == '0' || digits[0] == '1' ==>
      Execute(s, ParseCommand("f" + digits + rest)) == Settings(s.interval, Value(digits, |digits|) != 0, s.table)
  {
    SettingTokens(digits, rest);
  }

  /** A payload of any tokens that fits is the commands of its tokens, in order; what stands behind a NUL is not
      read. */
  lemma {:induction false} PayloadTokens(tokens: seq<string>, junk: string)
    requires AllFree(tokens, ';') && AllFree(tokens, NUL) && "" !in tokens && !IsStatus(Join(tokens, ';'))
    requires |Join(tokens, ';')| + 1 + |junk| < 303
    ensures var commands := CommandsIn(Join(tokens, ';') + [NUL] + junk);
      |commands| == |tokens| && forall i :: 0 <= i < |tokens| ==> commands[i] == ParseCommand(tokens[i])
  {
    var text := Join(tokens, ';');
    var payload := text + [NUL] + junk;
    JoinFree(tokens, ';', NUL);
    assert payload[|text|] == NUL && payload[..|text|] == text && Find(payload, NUL) == |text|;
    TokensOfJoin(tokens, ';');
    ParsedEach(tokens);
  }

  lemma {:induction false} ParsedEach(tokens: seq<string>)
    ensures |ParseAll(tokens)| == |tokens|
    ensures forall i :: 0 <= i < |tokens| ==> ParseAll(tokens)[i] == ParseCommand(tokens[i])
  {
    if tokens != [] {
      ParsedEach(tokens[1..]);
    }
  }

  /** A payload of 303 bytes or more is not executed. */
  lemma {:induction false} LongPayload(payload: string)
    requires |payload| >= 303
    ensures CommandsIn(payload) == []
  {
  }
}
