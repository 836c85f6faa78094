/** The server's `/update` resource: one poll folds Telegram's update list over the registered chats. */
module UpdateServer {
  import opened Text
  import opened PythonText
  import opened Codec
  import opened Dictionaries
  import Commands
  import Requests

  /** One Telegram update. An id, a name or a date that is missing is 0, "" and 0: falsy either way. */
  datatype Update = Update(text: string, chatId: int, firstName: string, date: int)

  /** `feedback` is None while it is still the initial integer, which no text equals. */
  datatype ServerState = ServerState(
    password: string, lastUpdate: int, chats: map<int, string>, interval: int, feedback: Option<string>)

  /** The local variables of the loop, and `self.chats`, which it edits while it runs. */
  datatype Tally = Tally(
    chats: map<int, string>, interval: Option<int>, feedback: Option<string>, added: seq<Chat<int>>,
    removal: Option<int>)

  predicate IsFresh(s: ServerState, u: Update) {
    u.date != 0 && u.date > s.lastUpdate
  }

  predicate IsRemoval(s: ServerState, u: Update) {
    IsFresh(s, u) && Lower(Strip(u.text)) == "remove me"
  }

  /** Anything said under a name registers its chat, however old it is. */
  predicate CanRegister(u: Update) {
    Strip(u.text) != "" && u.chatId != 0 && u.firstName != ""
  }

  predicate Registers(s: ServerState, u: Update) {
    CanRegister(u) && !IsRemoval(s, u)
  }

  datatype ConfigText = ConfigText(password: string, name: string, value: string)

  /** The parts of a "config <password> <name> <value>" text. */
  function ConfigOf(text: string): Option<ConfigText> {
    var t := Strip(text);
    var parts := SplitAtMost(t, ' ', 3);
    if "config " <= Lower(t) && |parts| == 4 then Some(ConfigText(parts[1], parts[2], parts[3])) else None
  }

  /** The config of a fresh message with the right password. */
  function Authorised(s: ServerState, u: Update): Option<ConfigText> {
    var c := ConfigOf(u.text);
    if IsFresh(s, u) && c.Some? && c.value.password == s.password then c else None
  }

  /** The interval such a message asks for, when it is one the server accepts. */
  function IntervalRequest(s: ServerState, u: Update): Option<int> {
    var c := Authorised(s, u);
    if c.Some? && c.value.name == "interval" then
      var n := ToInt(c.value.value);
      if n.Some? && 1 <= n.value <= 120 then n else None
    else None
  }

  function FeedbackRequest(s: ServerState, u: Update): Option<string> {
    var c := Authorised(s, u);
    if c.Some? && c.value.name == "feedback" && (c.value.value == "0" || c.value.value == "1") then Some(c.value.value)
    else None
  }

  /** The accepted request, unless it asks for what is stored already. */
  function NewInterval(s: ServerState, u: Update): Option<int> {
    var r := IntervalRequest(s, u);
    if r == Some(s.interval) then None else r
  }

  function NewFeedback(s: ServerState, u: Update): Option<string> {
    var r := FeedbackRequest(s, u);
    if r == s.feedback then None else r
  }

  function Or<T>(a: Option<T>, b: Option<T>): Option<T> {
    if a.Some? then a else b
  }

  /** What one update does to the loop's variables. */
  function Step(s: ServerState, t: Tally, u: Update): Tally {
    if IsRemoval(s, u) then
      if u.chatId in t.chats then t.(chats := t.chats - {u.chatId}, removal := Some(u.chatId)) else t
    else
      Tally(
        t.chats,
        Or(NewInterval(s, u), t.interval),
        Or(NewFeedback(s, u), t.feedback),
        if CanRegister(u) && u.chatId !in t.chats then Put(t.added, Chat(u.chatId, u.firstName)) else t.added,
        t.removal)
  }

  function Fold(s: ServerState, updates: seq<Update>): Tally {
    if updates == [] then Tally(s.chats, None, None, [], None)
    else Step(s, Fold(s, updates[..|updates| - 1]), updates[|updates| - 1])
  }

  predicate IsChange(t: Tally) {
    t.interval.Some? || t.feedback.Some? || t.added != [] || t.removal.Some?
  }

  function PutAll(chats: map<int, string>, added: seq<Chat<int>>): map<int, string>
    decreases |added|
  {
    if added == [] then chats else PutAll(chats[added[0].id := added[0].name], added[1..])
  }

  datatype Outcome = Outcome(state: ServerState, changes: Option<Changes>)

  /** One poll at time `now`. */
  function Poll(s: ServerState, updates: seq<Update>, now: int): Outcome {
    var t := Fold(s, updates);
    if IsChange(t) then
      Outcome(
        ServerState(
          s.password, now, PutAll(t.chats, t.added),
          if t.interval.Some? then t.interval.value else s.interval,
          if t.feedback.Some? then t.feedback else s.feedback),
        Some(Changes(t.interval, t.feedback, t.added, t.removal)))
    else
      Outcome(s.(chats := t.chats), None)
  }

  /** The payload of the answer. */
  function Answer(changes: Option<Changes>): string {
    if changes.Some? then Encode(changes.value) else Commands.NO_UPDATES
  }

  /** What the board gets for an update request. The text of a server error is not modelled. */
  datatype Reply = Answered(payload: string) | BadRequest | FetchFailed | ServerError

  datatype Handled = Handled(state: ServerState, reply: Reply)

  /** What fetching gives: nothing, or the updates the loop can process. It is broken when another one follows that
      the loop cannot process, or when the response is no list at all. */
  datatype Fetched = Failed | Listed(updates: seq<Update>, broken: bool)

  /** An update request: parsed, then answered from the fetched updates. A broken list interrupts the loop: the
      deletions made so far stay, and nothing is committed or sent. */
  function Handle(s: ServerState, body: string, fetched: Fetched, now: int): Handled {
    match Requests.ParseUpdate(body)
    case MalformedUpdate => Handled(s, ServerError)
    case MissingUpdateFields => Handled(s, BadRequest)
    case GetUpdates(_, _) =>
      if fetched.Failed? then Handled(s, FetchFailed)
      else if fetched.broken then Handled(s.(chats := Fold(s, fetched.updates).chats), ServerError)
      else
        var o := Poll(s, fetched.updates, now);
        Handled(o.state, Answered(Answer(o.changes)))
  }

  class UpdateResource {
    const password: string
    var lastUpdate: int
    var chats: map<int, string>
    var interval: int
    var feedback: Option<string>

    ghost function State(): ServerState
      reads this
    {
      ServerState(password, lastUpdate, chats, interval, feedback)
    }

    constructor (password: string, startTime: int)
      ensures State() == ServerState(password, startTime, map[], 2, None)
    {
      this.password := password;
      lastUpdate, chats, interval, feedback := startTime, map[], 2, None;
    }

    /** One iteration of the loop; a `return` is its `continue`. */
    method ProcessUpdate(u: Update, ghost s: ServerState, t: Tally) returns (r: Tally)
      requires State() == s.(chats := chats) && chats == t.chats
      modifies this`chats
      ensures r == Step(s, t, u) && chats == r.chats
    {
      r := t;
      var text := Strip(u.text);
      if text == "" {
        EmptyText(s, u);
        return;
      }
      if u.date != 0 && u.date > lastUpdate {
        if Lower(text) == "remove me" {
          if u.chatId in chats {
            r := r.(removal := Some(u.chatId));
            chats := chats - {u.chatId};
            r := r.(chats := chats);
          }
          return;
        }
      }
      if u.chatId != 0 && u.firstName != "" && u.chatId !in chats {
        r := r.(added := Put(r.added, Chat(u.chatId, u.firstName)));
      }
      r := ProcessConfig(text, u, s, r);
    }

    /** The part of the iteration that reads a config message. */
    method ProcessConfig(text: string, u: Update, ghost s: ServerState, t: Tally) returns (r: Tally)
      requires State() == s.(chats := chats) && text == Strip(u.text)
      ensures r == t.(interval := Or(NewInterval(s, u), t.interval), feedback := Or(NewFeedback(s, u), t.feedback))
    {
      r := t;
      if !("config " <= Lower(text)) {
        return;
      }
      var parts := SplitAtMost(text, ' ', 3);
      if |parts| < 4 {
        return;
      }
      var name, value := parts[2], parts[3];
      if parts[1] != password {
        return;
      }
      if u.date != 0 && u.date > lastUpdate {
        if name == "interval" {
          var n := ToInt(value);
          if n.None? || !(1 <= n.value <= 120) {
            return;
          }
          if n.value != interval {
            r := r.(interval := n);
          }
        } else if name == "feedback" {
          if value != "0" && value != "1" {
            return;
          }
          if Some(value) != feedback {
            r := r.(feedback := Some(value));
          }
        }
      }
    }

    /** The loop over the updates. */
    method LoopOverUpdates(updates: seq<Update>) returns (t: Tally)
      modifies this`chats
      ensures t == Fold(old(State()), updates) && State() == old(State()).(chats := t.chats)
    {
      ghost var s := State();
      t := Tally(chats, None, None, [], None);
      var i := 0;
      while i < |updates|
        invariant 0 <= i <= |updates|
        invariant State() == s.(chats := chats) && chats == t.chats
        invariant t == Fold(s, updates[..i])
      {
        t := ProcessUpdate(updates[i], s, t);
        assert updates[..i + 1][..i] == updates[..i];
        i := i + 1;
      }
      assert updates[..i] == updates;
    }

    /** The commit and the answer. */
    method Commit(t: Tally, now: int, ghost s: ServerState, ghost updates: seq<Update>) returns (answer: string)
      requires t == Fold(s, updates) && State() == s.(chats := t.chats)
      modifies this
      ensures State() == Poll(s, updates, now).state && answer == Answer(Poll(s, updates, now).changes)
    {
      if t.interval.Some? || t.feedback.Some? || t.added != [] || t.removal.Some? {
        if t.interval.Some? {
          interval := t.interval.value;
        }
        if t.feedback.Some? {
          feedback := t.feedback;
        }
        chats := PutAll(chats, t.added);
        lastUpdate := now;
        return Encode(Changes(t.interval, t.feedback, t.added, t.removal));
      }
      answer := Commands.NO_UPDATES;
    }

    /** `render_post`: the request is checked before Telegram is asked. */
    method RenderPost(body: string, fetched: Fetched, now: int) returns (reply: Reply)
      modifies this
      ensures Handled(State(), reply) == Handle(old(State()), body, fetched, now)
    {
      var request := Requests.ParseUpdate(body);
      if request.MalformedUpdate? {
        return ServerError;
      }
      if request.MissingUpdateFields? {
        return BadRequest;
      }
      if fetched.Failed? {
        return FetchFailed;
      }
      ghost var s := State();
      var tally := LoopOverUpdates(fetched.updates);
      if fetched.broken {
        return ServerError;
      }
      var answer := Commit(tally, now, s, fetched.updates);
      reply := Answered(answer);
    }
  }

  lemma {:induction false} EmptyText(s: ServerState, u: Update)
    requires Strip(u.text) == ""
    ensures forall t :: Step(s, t, u) == t
  {
    assert Lower("") == "";
  }
}
