/** The firmware's configuration store and its response handling, as an object over its arrays. */
module Board {
  import opened Text
  import opened Decimal
  import opened CStrings
  import opened ChatTable
  import opened Commands

  const CHAT_IDS_STR_SIZE: nat := MAX_CHAT_IDS * (CHAT_ID_LENGTH + 2)

  class Config {
    var interval: int
    var feedback: bool
    const slots: array<Slot>
    const response: array<char>
    const chatIdsStr: array<char>

    ghost predicate Valid()
      reads this, slots
    {
      && slots.Length == MAX_CHAT_IDS
      && response.Length == COAP_UPDATE_SIZE
      && chatIdsStr.Length == CHAT_IDS_STR_SIZE
      && response != chatIdsStr
      && Bounded(slots[..])
    }

    ghost function State(): Settings
      reads this, slots
    {
      Settings(interval, feedback, slots[..])
    }

    /** The zero-initialised globals. */
    constructor ()
      ensures Valid() && fresh(slots) && fresh(response) && fresh(chatIdsStr)
      ensures slots[..] == EmptyTable()
    {
      interval, feedback := 0, false;
      slots := new Slot[MAX_CHAT_IDS](_ => HOLE);
      response := new char[COAP_UPDATE_SIZE](_ => NUL);
      chatIdsStr := new char[CHAT_IDS_STR_SIZE](_ => NUL);
    }

    method StoreSlot(index: nat, name: string, id: string)
      requires Valid() && index < MAX_CHAT_IDS
      requires SlotFits(Slot(Fit(name, CHAT_NAME_LENGTH), Fit(id, CHAT_ID_LENGTH)))
      modifies slots
      ensures Valid()
      ensures slots[..] == old(slots[..])[index := Slot(Fit(name, CHAT_NAME_LENGTH), Fit(id, CHAT_ID_LENGTH))]
    {
      slots[index] := Slot(Fit(name, CHAT_NAME_LENGTH), Fit(id, CHAT_ID_LENGTH));
    }

    /** The body of `config_init`'s loop: the token is split in place at its colon and stored. */
    method StoreEntry(copy: array<char>, token: nat, index: nat)
      requires Valid() && index < MAX_CHAT_IDS && Terminated(copy, token)
      requires IsStorable(At(copy, token))
      modifies slots, copy
      ensures Valid() && slots[..] == old(slots[..])[index := InitialSlot(old(At(copy, token)))]
      ensures forall i :: token + |old(At(copy, token))| <= i < copy.Length ==> copy[i] == old(copy[i])
    {
      ghost var text := At(copy, token);
      InitialSlotFits(text);
      var colon := StrChr(copy, token, ':');
      if colon < 0 {
        var id := Read(copy, token);
        assert InitialSlot(text) == Slot(Fit("", CHAT_NAME_LENGTH), Fit(id, CHAT_ID_LENGTH));
        StoreSlot(index, "", id);
      } else {
        StoreSplit(copy, token, colon, index);
      }
    }

    method StoreSplit(copy: array<char>, token: nat, colon: nat, index: nat)
      requires Valid() && index < MAX_CHAT_IDS && Terminated(copy, token)
      requires var text := At(copy, token); token <= colon == token + Find(text, ':') < token + |text|
      modifies slots, copy
      ensures Valid() && slots[..] == old(slots[..])[index := InitialSlot(old(At(copy, token)))]
      ensures forall i :: token + |old(At(copy, token))| <= i < copy.Length ==> copy[i] == old(copy[i])
    {
      ghost var text := At(copy, token);
      InitialSlotFits(text);
      var name, id := CutInTwo(copy, token, colon);
      StoreSlot(index, name, id);
    }

    /** The loop of `config_init` has reached slot `index`; finishing it leads to the table `goal`. */
    ghost predicate Storing(scanner: Scanner, token: int, index: int, pending: seq<string>, goal: seq<Slot>)
      reads this, slots, scanner, scanner.buffer
    {
      && Valid() && scanner.Scanning(token, ',', pending) && 0 <= index <= MAX_CHAT_IDS
      && AreStorable(pending, MAX_CHAT_IDS - index) && StoreAll(slots[..], index, pending) == goal
    }

    /** One round of the loop. */
    method StoreAndAdvance(scanner: Scanner, token: nat, index: nat, ghost pending: seq<string>, ghost goal: seq<Slot>)
      returns (next: int)
      requires index < MAX_CHAT_IDS && Storing(scanner, token, index, pending, goal)
      modifies slots, scanner.buffer, scanner
      ensures Storing(scanner, next, index + 1, pending[1..], goal)
    {
      ghost var rest := scanner.buffer[scanner.saved..];
      StoreEntry(scanner.buffer, token, index);
      assert scanner.buffer[scanner.saved..] == rest;
      next := scanner.Next(',');
    }

    /** `config_init`'s `strtok` loop, from the first token on. */
    method StoreTokens(scanner: Scanner, first: int, ghost tokens: seq<string>, ghost goal: seq<Slot>)
      requires Storing(scanner, first, 0, tokens, goal)
      modifies slots, scanner.buffer, scanner
      ensures Valid() && slots[..] == goal
    {
      var token, index := first, 0;
      ghost var pending := tokens;
      while token >= 0 && index < MAX_CHAT_IDS
        invariant Storing(scanner, token, index, pending, goal)
        decreases MAX_CHAT_IDS - index
      {
        token := StoreAndAdvance(scanner, token, index, pending, goal);
        pending := pending[1..];
        index := index + 1;
      }
    }

    /** The scan of its copy of the list. */
    method StoreEntries(copy: array<char>)
      requires Valid() && Terminated(copy, 0) && AreStorable(Tokens(At(copy, 0), ','), MAX_CHAT_IDS)
      modifies slots, copy
      ensures Valid() && slots[..] == StoreAll(old(slots[..]), 0, Tokens(old(At(copy, 0)), ','))
    {
      ghost var tokens := Tokens(At(copy, 0), ',');
      ghost var goal := StoreAll(slots[..], 0, tokens);
      var scanner, first := FirstToken(copy, ',');
      StoreTokens(scanner, first, tokens, goal);
    }

    /** `config_init`: settings and chat list from the build. An over-long entry without a colon would be
        copied without its terminator; the precondition keeps such entries out. */
    method ConfigInit(minutes: int, ledFeedback: bool, chatIds: string)
      requires Valid() && slots[..] == EmptyTable() && NUL !in chatIds
      requires forall e :: e in EntriesRead(chatIds) ==> IsStorable(e)
      modifies this`interval, this`feedback, slots
      ensures Valid() && State() == Settings(minutes, ledFeedback, InitialTable(chatIds))
    {
      interval, feedback := minutes, ledFeedback;
      var copy := new char[CHAT_IDS_COPY_SIZE];
      var text := Fit(chatIds, CHAT_IDS_COPY_SIZE);
      Fill(copy, text);
      CStringOfLoaded(text, copy[|text|..]);
      assert copy[0..] == copy[..];
      assert At(copy, 0) == text;
      ghost var entries := Tokens(text, ',');
      assert forall i :: 0 <= i < |entries| && i < MAX_CHAT_IDS ==> entries[i] == FirstTen(entries)[i];
      StoreAllIsTable(entries);
      StoreEntries(copy);
    }

    // ----- the chat table -----

    method SetChatId(name: string, id: string)
      requires Valid() && NUL !in name && NUL !in id
      modifies slots
      ensures Valid() && slots[..] == SetChat(old(slots[..]), name, id)
    {
      for i := 0 to MAX_CHAT_IDS
        invariant slots[..] == old(slots[..])
        invariant forall j :: 0 <= j < i ==> slots[j].name != name && slots[j].id != id
      {
        if slots[i].name == name {
          assert FirstMatch(slots[..], name, id) == i;
          slots[i] := Slot(slots[i].name, Fit(id, CHAT_ID_LENGTH));
          return;
        }
        if slots[i].id == id {
          assert FirstMatch(slots[..], name, id) == i;
          slots[i] := Slot(Fit(name, CHAT_NAME_LENGTH), slots[i].id);
          return;
        }
      }
      assert FirstMatch(slots[..], name, id) == MAX_CHAT_IDS;
      for i := 0 to MAX_CHAT_IDS
        invariant slots[..] == old(slots[..])
        invariant forall j :: 0 <= j < i ==> slots[j].id != ""
      {
        if |slots[i].id| == 0 {
          assert FirstHole(slots[..]) == i;
          slots[i] := Slot(Fit(name, CHAT_NAME_LENGTH), Fit(id, CHAT_ID_LENGTH));
          return;
        }
      }
    }

    method RemoveChatByIdOrName(key: string)
      requires Valid()
      modifies slots
      ensures Valid() && slots[..] == RemoveChat(old(slots[..]), key)
    {
      for i := 0 to MAX_CHAT_IDS
        invariant slots[..] == old(slots[..])
        invariant forall j :: 0 <= j < i ==> slots[j].name != key && slots[j].id != key
      {
        if slots[i].name == key || slots[i].id == key {
          assert FirstMatch(slots[..], key, key) == i;
          slots[i] := HOLE;
          return;
        }
      }
    }

    method GetChatIdByName(name: string) returns (id: Option<string>)
      requires Valid()
      ensures id == IdByName(slots[..], name)
    {
      for i := 0 to MAX_CHAT_IDS
        invariant IdByName(slots[..], name) == IdByName(slots[i..], name)
      {
        assert slots[i..][1..] == slots[i + 1..];
        if slots[i].name == name {
          return Some(slots[i].id);
        }
      }
      id := None;
    }

    /** After `i` slots the buffer holds the join of `done`. */
    ghost predicate HoldsJoin(i: nat, done: seq<string>)
      reads this, slots, chatIdsStr
    {
      && Valid() && Terminated(chatIdsStr, 0) && At(chatIdsStr, 0) == Join(done, ',')
      && |Join(done, ',')| <= CHAT_ID_LENGTH * i && "" !in done
    }

    /** One round of the `strcat` loop. */
    method AppendLive(i: nat, ghost done: seq<string>)
      requires i < MAX_CHAT_IDS && HoldsJoin(i, done)
      modifies chatIdsStr
      ensures HoldsJoin(i + 1, done + LiveId(slots[i]))
    {
      assert SlotFits(slots[..][i]);
      if |slots[i].id| > 0 {
        JoinSnoc(done, slots[i].id, ',');
        AppendJoined(chatIdsStr, slots[i].id, done);
      } else {
        assert done + [] == done;
      }
    }

    /** Rebuilds the static buffer with `strcat`; what it then holds is the comma-joined live ids. */
    method GetChatIdsString()
      requires Valid()
      modifies chatIdsStr
      ensures Terminated(chatIdsStr, 0) && At(chatIdsStr, 0) == Join(LiveIds(slots[..]), ',')
    {
      ghost var table := slots[..];
      ghost var done: seq<string> := [];
      chatIdsStr[0] := NUL;
      for i := 0 to MAX_CHAT_IDS
        invariant HoldsJoin(i, done) && done == LiveIds(table[..i])
      {
        LiveIdsSnoc(table, i);
        AppendLive(i, done);
        done := done + LiveId(table[i]);
      }
      assert table[..MAX_CHAT_IDS] == table;
    }

    // ----- applying a response -----

    /** The feedback, interval and removal branches only read the token. */
    method SettingFromToken(token: nat)
      requires Valid() && Terminated(response, token) && IsReserved(At(response, token))
      modifies this`interval, this`feedback, slots
      ensures Valid() && State() == Execute(old(State()), ParseCommand(At(response, token)))
    {
      Peek(response, token);
      AtTail(response, token, 1);
      var rest := Read(response, token + 1);
      if response[token] == 'f' {
        feedback := Atoi(rest) != 0;
      } else if response[token] == 'i' {
        interval := Atoi(rest);
      } else {
        RemoveChatByIdOrName(rest);
      }
    }

    /** The chat branch splits the token in place at its first colon. */
    method AddChatFromToken(token: nat)
      requires Valid() && Terminated(response, token) && !IsReserved(At(response, token))
      modifies slots, response
      ensures Valid() && State() == Execute(old(State()), ParseCommand(old(At(response, token))))
      ensures forall i :: token + |old(At(response, token))| <= i < response.Length ==> response[i] == old(response[i])
    {
      ghost var text := At(response, token);
      var colon := StrChr(response, token, ':');
      if colon < 0 {
        assert ParseCommand(text) == Ignored;
        return;
      }
      assert ParseCommand(text) == AddChat(text[..colon - token], text[colon - token + 1..]);
      var name, id := CutInTwo(response, token, colon);
      SetChatId(name, id);
    }

    /** One token of the response buffer. Nothing after the token is touched. */
    method ProcessConfigCommand(token: nat)
      requires Valid() && Terminated(response, token) && At(response, token) != ""
      modifies this`interval, this`feedback, slots, response
      ensures Valid() && State() == Execute(old(State()), ParseCommand(old(At(response, token))))
      ensures forall i :: token + |old(At(response, token))| <= i < response.Length ==> response[i] == old(response[i])
    {
      Peek(response, token);
      var c0, c1 := response[token], response[token + 1];
      if (c0 == 'f' && (c1 == '0' || c1 == '1')) || (c0 == 'i' && IsDigit(c1)) || (c0 == 'r' && IsDigit(c1)) {
        SettingFromToken(token);
      } else {
        AddChatFromToken(token);
      }
    }

    /** One round of the `strtok` loop: the edit inside the token leaves the rest of the scan alone. */
    method ProcessAndAdvance(scanner: Scanner, token: nat, ghost pending: seq<string>) returns (next: int)
      requires Valid() && scanner.buffer == response && scanner.Scanning(token, ';', pending)
      modifies this`interval, this`feedback, slots, response, scanner
      ensures Valid() && scanner.Scanning(next, ';', pending[1..])
      ensures State() == Execute(old(State()), ParseCommand(pending[0]))
    {
      ghost var rest := response[scanner.saved..];
      ProcessConfigCommand(token);
      assert response[scanner.saved..] == rest;
      next := scanner.Next(';');
    }

    /** The `strtok` loop: every token of the buffer is executed once, in order, although each one is
        edited while the scan is under way. */
    method ExecuteTokens()
      requires Valid() && Terminated(response, 0)
      modifies this`interval, this`feedback, slots, response
      ensures Valid()
      ensures State() == ExecuteAll(old(State()), ParseAll(Tokens(old(At(response, 0)), ';')))
    {
      ghost var pending := Tokens(At(response, 0), ';');
      ghost var goal := ExecuteAll(State(), ParseAll(pending));
      var scanner, token := FirstToken(response, ';');
      while token >= 0
        invariant Valid() && scanner.buffer == response && scanner.Scanning(token, ';', pending)
        invariant ExecuteAll(State(), ParseAll(pending)) == goal
        decreases |pending|
      {
        token := ProcessAndAdvance(scanner, token, pending);
        pending := pending[1..];
      }
    }

    /** `config_control` on the bytes of any payload. */
    method ConfigControl(payload: string)
      requires Valid()
      modifies this`interval, this`feedback, slots, response
      ensures Valid()
      ensures State() == ExecuteAll(old(State()), CommandsIn(payload))
    {
      if |payload| >= COAP_UPDATE_SIZE {
        Fill(response, "");
        return;
      }
      Fill(response, payload);
      CStringOfLoaded(payload, response[|payload|..]);
      assert response[0..] == response[..];
      var text := Read(response, 0);
      if text == MESSAGES_SENT || text == NO_UPDATES {
        return;
      }
      ExecuteTokens();
    }
  }
}
