/** The request direction: the form the board sends and the fields the server reads from it. */
module Requests {
  import opened Text
  import opened Decimal
  import opened PythonText
  import opened CStrings
  import opened ChatTable

  const URL_LENGTH: nat := 30
  const BOT_TOKEN_LENGTH: nat := 50
  const MESSAGE_DATA_LENGTH: nat := 40
  const URI_PATH_LENGTH: nat := 20
  const COAP_BUF_SIZE: nat :=
    8 + URI_PATH_LENGTH + URL_LENGTH + BOT_TOKEN_LENGTH +
    MAX_CHAT_IDS * (CHAT_NAME_LENGTH + CHAT_ID_LENGTH + 1) + MESSAGE_DATA_LENGTH + 20

  /** What the board formats for "/message". */
  function MessageForm(url: string, token: string, chatIds: string, text: string): string {
    "url=" + url + "&token=" + token + "&chat_ids=" + chatIds + "&text=" + text
  }

  /** What the board formats for "/update". */
  function UpdateForm(url: string, token: string): string {
    "url=" + url + "&token=" + token
  }

  // ----- the server's parser -----

  /** The dictionary of the `key=value` items; None where unpacking an item raises. Later items win. */
  function FieldsOf(items: seq<string>): Option<map<string, string>> {
    if items == [] then Some(map[])
    else
      var parts, rest := SplitOn(items[0], '='), FieldsOf(items[1..]);
      if |parts| == 2 && rest.Some? then Some(map[parts[0] := parts[1]] + rest.value) else None
  }

  function Get(fields: map<string, string>, key: string): string {
    if key in fields then fields[key] else ""
  }

  function Without(s: string, c: char): string {
    if s == "" then "" else (if s[0] == c then "" else [s[0]]) + Without(s[1..], c)
  }

  /** `re.sub(r"[^\x20-\x7E]", "", s)`. */
  function Printable(s: string): string {
    if s == "" then "" else (if ' ' <= s[0] <= '~' then [s[0]] else "") + Printable(s[1..])
  }

  datatype Message =
    | Malformed
    | MissingFields
    | Send(url: string, token: string, chatIds: seq<string>, text: string)

  /** `CoAPResource.render_post` up to the calls to Telegram. */
  function ParseMessage(body: string): Message {
    var data := FieldsOf(SplitOn(body, '&'));
    if data.None? then Malformed
    else
      var url, token := Strip(Get(data.value, "url")), Strip(Get(data.value, "token"));
      var chatIds := Strip(Get(data.value, "chat_ids"));
      var text := Without(Without(Strip(Get(data.value, "text")), NUL), '\n');
      if url == "" || token == "" || chatIds == "" || text == "" then MissingFields
      else Send(url, token, SplitOn(chatIds, ','), text)
  }

  datatype UpdateRequest =
    | MalformedUpdate
    | MissingUpdateFields
    | GetUpdates(url: string, token: string)

  /** `CoAPResourceGet.render_post` up to the call to Telegram. */
  function ParseUpdate(body: string): UpdateRequest {
    var data := FieldsOf(SplitOn(body, '&'));
    if data.None? then MalformedUpdate
    else
      var url := Printable(Strip(Get(data.value, "url")));
      var token := Printable(Strip(Get(data.value, "token")));
      if url == "" || token == "" then MissingUpdateFields else GetUpdates(url, token)
  }

  // ----- the hypotheses -----

  /** No delimiter of the form. */
  predicate IsPlain(s: string) {
    '&' !in s && '=' !in s
  }

  /** A value the parser's trimming leaves alone. */
  predicate IsTrimmed(s: string) {
    s != "" && !IsSpace(s[0]) && !IsSpace(s[|s| - 1]) && NUL !in s
  }

  predicate IsPrintable(s: string) {
    forall i :: 0 <= i < |s| ==> ' ' <= s[i] <= '~'
  }

  /** A text that is trimmed once its newlines are gone; the board's messages end with one. */
  predicate IsSendable(text: string) {
    text != "" && !IsSpace(text[0]) && NUL !in text && IsTrimmed(Without(text, '\n'))
  }

  // ----- size -----

  /** With bounded settings the form takes at most 263 of its 448 bytes, and leaves room for any header of at
      most 92 bytes counted twice. */
  lemma {:induction false} FormFits(url: string, token: string, chatIds: string, text: string)
    requires |url| < URL_LENGTH && |token| < BOT_TOKEN_LENGTH && |chatIds| <= 119 && |text| < MESSAGE_DATA_LENGTH
    ensures |MessageForm(url, token, chatIds, text)| <= 263 <= COAP_BUF_SIZE - 2 * 92
  {
  }

  // ----- trimming -----

  lemma {:induction false} StripRightStops(s: string)
    requires s == "" || !IsSpace(s[|s| - 1])
    ensures StripRight(s) == s
  {
  }

  lemma {:induction false} WithoutConcat(a: string, b: string, c: char)
    ensures Without(a + b, c) == Without(a, c) + Without(b, c)
  {
    if a == "" {
      assert a + b == b;
    } else {
      assert (a + b)[1..] == a[1..] + b;
      WithoutConcat(a[1..], b, c);
    }
  }

  lemma {:induction false} WithoutAbsent(s: string, c: char)
    requires c !in s
    ensures Without(s, c) == s
  {
    if s != "" {
      WithoutAbsent(s[1..], c);
    }
  }

  lemma {:induction false} WithoutZeros(z: string)
    requires forall i :: 0 <= i < |z| ==> z[i] == NUL
    ensures Without(z, NUL) == ""
  {
    if z != "" {
      WithoutZeros(z[1..]);
    }
  }

  /** Trailing whitespace of a sendable text is newlines only, so trimming before or after removing them is the same. */
  lemma {:induction false} StripRightThenWithout(s: string)
    requires Without(s, '\n') == "" || !IsSpace(Without(s, '\n')[|Without(s, '\n')| - 1])
    ensures Without(StripRight(s), '\n') == Without(s, '\n')
  {
    if s != "" && IsSpace(s[|s| - 1]) {
      var front := s[..|s| - 1];
      assert s == front + [s[|s| - 1]];
      WithoutConcat(front, [s[|s| - 1]], '\n');
      assert s[|s| - 1] == '\n';
      StripRightThenWithout(front);
    }
  }

  /** The text field, padded with any number of zero bytes, is cleaned to the text without its newlines. */
  lemma {:induction false} TextIsCleaned(text: string, z: string)
    requires IsSendable(text) && forall i :: 0 <= i < |z| ==> z[i] == NUL
    ensures Without(Without(Strip(text + z), NUL), '\n') == Without(text, '\n')
  {
    assert StripLeft(text + z) == text + z;
    if z == "" {
      assert text + z == text;
      StripRightThenWithout(text);
      StripRightWithin(text, NUL);
      WithoutAbsent(StripRight(text), NUL);
    } else {
      assert (text + z)[|text + z| - 1] == NUL;
      StripRightStops(text + z);
      WithoutConcat(text, z, NUL);
      WithoutAbsent(text, NUL);
      WithoutZeros(z);
      assert text + "" == text;
    }
  }

  lemma {:induction false} StripRightWithin(s: string, c: char)
    requires c !in s
    ensures c !in StripRight(s)
  {
    if s != "" && IsSpace(s[|s| - 1]) {
      StripRightWithin(s[..|s| - 1], c);
    }
  }

  // ----- the form is read back -----

  /** Every value the parser extracts is free of both delimiters. */
  lemma {:induction false} FieldsArePlain(items: seq<string>)
    requires AllFree(items, '&')
    ensures FieldsOf(items).Some? ==> forall k :: k in FieldsOf(items).value ==> IsPlain(FieldsOf(items).value[k])
  {
    if items != [] && FieldsOf(items).Some? {
      FieldsArePlain(items[1..]);
      SplitIsFree(items[0], '=');
      var parts := SplitOn(items[0], '=');
      SplitIsWithin(items[0], '=', parts[1], '&');
    }
  }

  lemma {:induction false} SplitIsWithin(s: string, c: char, part: string, x: char)
    requires part in SplitOn(s, c)
    ensures x in part ==> x in s
    decreases |s|
  {
    var k := Find(s, c);
    if part != s[..k] {
      SplitIsWithin(s[k + 1..], c, part, x);
    }
  }

  datatype Field = Field(key: string, value: string)

  function Items(fields: seq<Field>): seq<string> {
    if fields == [] then [] else [fields[0].key + "=" + fields[0].value] + Items(fields[1..])
  }

  ghost predicate AreSeparable(fields: seq<Field>) {
    (forall i :: 0 <= i < |fields| ==> IsPlain(fields[i].key) && IsPlain(fields[i].value)) &&
    (forall i, j :: 0 <= i < j < |fields| ==> fields[i].key != fields[j].key)
  }

  lemma {:induction false} ItemParts(f: Field)
    requires IsPlain(f.key) && IsPlain(f.value)
    ensures SplitOn(f.key + "=" + f.value, '=') == [f.key, f.value] && '&' !in f.key + "=" + f.value
  {
    SplitOfJoin([f.key, f.value], '=');
    assert Join([f.key, f.value], '=') == f.key + "=" + f.value;
  }

  /** Items with distinct keys and plain values are read back as exactly those fields. */
  lemma {:induction false} ItemsAreRead(fields: seq<Field>)
    requires AreSeparable(fields)
    ensures AllFree(Items(fields), '&') && |Items(fields)| == |fields| && FieldsOf(Items(fields)).Some?
    ensures forall i :: 0 <= i < |fields| ==> Get(FieldsOf(Items(fields)).value, fields[i].key) == fields[i].value
    ensures forall k :: k in FieldsOf(Items(fields)).value ==> exists i :: 0 <= i < |fields| && fields[i].key == k
  {
    if fields != [] {
      ItemsAreRead(fields[1..]);
      ItemParts(fields[0]);
      FirstItemIsRead(fields);
      forall i | 0 <= i < |fields|
        ensures Get(FieldsOf(Items(fields)).value, fields[i].key) == fields[i].value
      {
        assert i > 0 ==> fields[i] == fields[1..][i - 1];
      }
      forall k | k in FieldsOf(Items(fields)).value ensures exists i :: 0 <= i < |fields| && fields[i].key == k {
        if k != fields[0].key {
          var i :| 0 <= i < |fields[1..]| && fields[1..][i].key == k;
          assert fields[i + 1].key == k;
        }
      }
    }
  }

  lemma {:induction false} FirstItemIsRead(fields: seq<Field>)
    requires fields != [] && AreSeparable(fields) && FieldsOf(Items(fields[1..])).Some?
    requires SplitOn(fields[0].key + "=" + fields[0].value, '=') == [fields[0].key, fields[0].value]
    requires forall k :: k in FieldsOf(Items(fields[1..])).value ==>
      exists i :: 0 <= i < |fields[1..]| && fields[1..][i].key == k
    ensures FieldsOf(Items(fields)) ==
      Some(FieldsOf(Items(fields[1..])).value[fields[0].key := fields[0].value])
    ensures fields[0].key !in FieldsOf(Items(fields[1..])).value
  {
    assert Items(fields)[1..] == Items(fields[1..]);
    var rest := FieldsOf(Items(fields[1..])).value;
    assert fields[0].key !in rest;
    assert map[fields[0].key := fields[0].value] + rest == rest[fields[0].key := fields[0].value];
  }

  function MessageFieldList(url: string, token: string, chatIds: string, text: string): seq<Field> {
    [Field("url", url), Field("token", token), Field("chat_ids", chatIds), Field("text", text)]
  }

  lemma {:induction false} MessageFormIsJoin(url: string, token: string, chatIds: string, text: string)
    ensures MessageForm(url, token, chatIds, text) == Join(Items(MessageFieldList(url, token, chatIds, text)), '&')
  {
    var fields := MessageFieldList(url, token, chatIds, text);
    ItemsOfFour(fields);
    JoinOfFour(Items(fields), '&');
    var a := "url=" + url;
    var b := a + "&token=" + token;
    var c := b + "&chat_ids=" + chatIds;
    NextItem(a, "token", token);
    NextItem(b, "chat_ids", chatIds);
    NextItem(c, "text", text);
    FormKeys();
  }

  lemma {:induction false} NextItem(form: string, key: string, value: string)
    ensures form + ("&" + key + "=") + value == form + "&" + (key + "=" + value)
  {
  }

  lemma {:induction false} FormKeys()
    ensures "&token=" == "&" + "token" + "=" && "&chat_ids=" == "&" + "chat_ids" + "=" && "&text=" == "&" + "text" + "="
  {
  }

  lemma {:induction false} ItemsOfFour(f: seq<Field>)
    requires |f| == 4
    ensures Items(f) == [f[0].key + "=" + f[0].value, f[1].key + "=" + f[1].value,
                         f[2].key + "=" + f[2].value, f[3].key + "=" + f[3].value]
  {
    assert f[1..][1..] == f[2..] && f[2..][1..] == f[3..] && f[3..][1..] == [];
    assert Items(f[3..]) == [f[3].key + "=" + f[3].value];
    assert Items(f[2..]) == [f[2].key + "=" + f[2].value] + Items(f[3..]);
    assert Items(f[1..]) == [f[1].key + "=" + f[1].value] + Items(f[2..]);
  }

  lemma {:induction false} JoinOfFour(p: seq<string>, c: char)
    requires |p| == 4
    ensures Join(p, c) == p[0] + [c] + p[1] + [c] + p[2] + [c] + p[3]
  {
    assert p[1..][1..] == p[2..] && p[2..][1..] == p[3..] && p[3..] == [p[3]];
    assert Join(p[2..], c) == p[2] + [c] + p[3];
    assert Join(p[1..], c) == p[1] + [c] + (p[2] + [c] + p[3]);
  }

  /** The dictionary of the message form. */
  lemma {:induction false} MessageFields(url: string, token: string, chatIds: string, text: string)
    requires IsPlain(url) && IsPlain(token) && IsPlain(chatIds) && IsPlain(text)
    ensures var d := FieldsOf(SplitOn(MessageForm(url, token, chatIds, text), '&'));
      d.Some? && Get(d.value, "url") == url && Get(d.value, "token") == token &&
      Get(d.value, "chat_ids") == chatIds && Get(d.value, "text") == text
  {
    var f := MessageFieldList(url, token, chatIds, text);
    assert |"url"| == 3 && |"token"| == 5 && |"chat_ids"| == 8 && |"text"| == 4;
    ItemsAreRead(f);
    MessageFormIsJoin(url, token, chatIds, text);
    SplitOfJoin(Items(f), '&');
    assert f[0].key == "url" && f[1].key == "token" && f[2].key == "chat_ids" && f[3].key == "text";
  }

  // ----- the message arrives -----

  /** An id that the list and the form can carry, as every numeral is, with or without a sign. */
  predicate IsId(id: string) {
    IsTrimmed(id) && IsPlain(id) && ',' !in id
  }

  predicate IsIdList(ids: seq<string>) {
    forall i :: 0 <= i < |ids| ==> IsId(ids[i])
  }

  lemma {:induction false} DecIsId(n: int)
    ensures IsId(Dec(n))
  {
    OfNatDigits(if n < 0 then -n else n);
    var digits := OfNat(if n < 0 then -n else n);
    assert forall i :: 0 <= i < |digits| ==> IsDigit(digits[i]);
    assert Dec(n) == (if n < 0 then "-" else "") + digits;
  }

  lemma {:induction false} IdsAreTrimmed(ids: seq<string>)
    requires IsIdList(ids)
    ensures IsPlain(Join(ids, ',')) && (ids != [] ==> IsTrimmed(Join(ids, ',')))
  {
    if |ids| > 1 {
      IdsAreTrimmed(ids[1..]);
    }
  }

  lemma {:induction false} TrimmedIsKept(s: string)
    requires IsTrimmed(s)
    ensures Strip(s) == s
  {
    StripRightStops(s);
  }

  /** The request arrives: whatever number of zero bytes follows it, the server reads back the url, the token,
      each chat id and the text without its newlines, if and only if those values hold no form delimiter. */
  lemma {:induction false} MessageArrives(url: string, token: string, ids: seq<string>, text: string, z: string)
    requires IsTrimmed(url) && IsTrimmed(token) && IsSendable(text)
    requires ids != [] && IsIdList(ids)
    requires forall i :: 0 <= i < |z| ==> z[i] == NUL
    ensures
      ParseMessage(MessageForm(url, token, Join(ids, ','), text) + z) == Send(url, token, ids, Without(text, '\n'))
      <==> IsPlain(url) && IsPlain(token) && IsPlain(text)
  {
    var body := MessageForm(url, token, Join(ids, ','), text) + z;
    if IsPlain(url) && IsPlain(token) && IsPlain(text) {
      PlainMessageArrives(url, token, ids, text, z);
    } else if ParseMessage(body) == Send(url, token, ids, Without(text, '\n')) {
      ParsedIsPlain(body);
      PlainWithout(text);
    }
  }

  lemma {:induction false} PlainMessageArrives(url: string, token: string, ids: seq<string>, text: string, z: string)
    requires IsTrimmed(url) && IsTrimmed(token) && IsSendable(text) && IsIdList(ids)
    requires forall i :: 0 <= i < |z| ==> z[i] == NUL
    requires IsPlain(url) && IsPlain(token) && IsPlain(text)
    ensures ParseMessage(MessageForm(url, token, Join(ids, ','), text) + z) ==
      if ids == [] then MissingFields else Send(url, token, ids, Without(text, '\n'))
  {
    var chatIds := Join(ids, ',');
    assert MessageForm(url, token, chatIds, text) + z == MessageForm(url, token, chatIds, text + z);
    IdsAreTrimmed(ids);
    MessageFields(url, token, chatIds, text + z);
    TrimmedIsKept(url);
    TrimmedIsKept(token);
    TextIsCleaned(text, z);
    if ids != [] {
      TrimmedIsKept(chatIds);
      SplitOfJoin(ids, ',');
    }
  }

  lemma {:induction false} ParsedIsPlain(body: string)
    ensures ParseMessage(body).Send? ==>
      IsPlain(ParseMessage(body).url) && IsPlain(ParseMessage(body).token) && IsPlain(ParseMessage(body).text)
  {
    SplitIsFree(body, '&');
    FieldsArePlain(SplitOn(body, '&'));
    var data := FieldsOf(SplitOn(body, '&'));
    if data.Some? {
      StripIsPlain(Get(data.value, "url"));
      StripIsPlain(Get(data.value, "token"));
      StripIsPlain(Get(data.value, "text"));
      var text := Strip(Get(data.value, "text"));
      WithoutIsWithin(text, NUL);
      WithoutIsWithin(Without(text, NUL), '\n');
    }
  }

  lemma {:induction false} StripIsPlain(s: string)
    requires IsPlain(s)
    ensures IsPlain(Strip(s))
  {
    StripLeftIsPlain(s);
    StripRightWithin(StripLeft(s), '&');
    StripRightWithin(StripLeft(s), '=');
  }

  lemma {:induction false} StripLeftIsPlain(s: string)
    requires IsPlain(s)
    ensures IsPlain(StripLeft(s))
  {
    if s != "" && IsSpace(s[0]) {
      StripLeftIsPlain(s[1..]);
    }
  }

  lemma {:induction false} WithoutIsWithin(s: string, c: char)
    ensures forall x :: x in Without(s, c) <==> x in s && x != c
  {
    if s != "" {
      WithoutIsWithin(s[1..], c);
      assert forall x :: x in s <==> x == s[0] || x in s[1..];
    }
  }

  lemma {:induction false} PlainWithout(text: string)
    ensures IsPlain(Without(text, '\n')) <==> IsPlain(text)
  {
    WithoutIsWithin(text, '\n');
  }

  // ----- the update request arrives -----

  lemma {:induction false} PrintableConcat(a: string, b: string)
    ensures Printable(a + b) == Printable(a) + Printable(b)
  {
    if a == "" {
      assert a + b == b;
    } else {
      assert (a + b)[1..] == a[1..] + b;
      PrintableConcat(a[1..], b);
    }
  }

  lemma {:induction false} PrintableIsKept(s: string)
    ensures IsPrintable(s) ==> Printable(s) == s
    ensures (forall i :: 0 <= i < |s| ==> s[i] == NUL) ==> Printable(s) == ""
  {
    if s != "" {
      PrintableIsKept(s[1..]);
    }
  }

  lemma {:induction false} UpdateFields(url: string, token: string)
    requires IsPlain(url) && IsPlain(token)
    ensures var d := FieldsOf(SplitOn(UpdateForm(url, token), '&'));
      d.Some? && Get(d.value, "url") == url && Get(d.value, "token") == token
  {
    var f := [Field("url", url), Field("token", token)];
    assert |"url"| == 3 && |"token"| == 5;
    ItemsAreRead(f);
    UpdateFormIsJoin(url, token);
    SplitOfJoin(Items(f), '&');
    assert f[0].key == "url" && f[1].key == "token";
  }

  lemma {:induction false} UpdateFormIsJoin(url: string, token: string)
    ensures UpdateForm(url, token) == Join(Items([Field("url", url), Field("token", token)]), '&')
  {
    var f := [Field("url", url), Field("token", token)];
    assert f[1..] == [Field("token", token)] && f[1..][1..] == [];
    assert Items(f[1..]) == ["token" + "=" + token];
    assert Items(f) == ["url" + "=" + url, "token" + "=" + token];
  }

  lemma {:induction false} TokenIsCleaned(token: string, z: string)
    requires IsTrimmed(token) && IsPrintable(token)
    requires forall i :: 0 <= i < |z| ==> z[i] == NUL
    ensures Printable(Strip(token + z)) == token
  {
    assert StripLeft(token + z) == token + z;
    StripRightStops(token + z);
    PrintableConcat(token, z);
    PrintableIsKept(token);
    PrintableIsKept(z);
    assert token + "" == token;
  }

  /** The update request has no text field to absorb the trailing zero bytes; filtering the unprintable
      characters removes them from the token. It arrives if and only if url and token hold no form delimiter and
      no character that is filtered. */
  lemma {:induction false} UpdateArrives(url: string, token: string, z: string)
    requires IsTrimmed(url) && IsTrimmed(token)
    requires forall i :: 0 <= i < |z| ==> z[i] == NUL
    ensures ParseUpdate(UpdateForm(url, token) + z) == GetUpdates(url, token) <==>
      IsPlain(url) && IsPlain(token) && IsPrintable(url) && IsPrintable(token)
  {
    var body := UpdateForm(url, token) + z;
    if IsPlain(url) && IsPlain(token) && IsPrintable(url) && IsPrintable(token) {
      assert body == UpdateForm(url, token + z);
      UpdateFields(url, token + z);
      TokenIsCleaned(token, z);
      assert url + "" == url;
      TokenIsCleaned(url, "");
    } else if ParseUpdate(body) == GetUpdates(url, token) {
      ParsedUpdateIsPlain(body);
    }
  }

  lemma {:induction false} PrintableIsPlain(s: string)
    ensures IsPrintable(Printable(s)) && (IsPlain(s) ==> IsPlain(Printable(s)))
  {
    if s != "" {
      PrintableIsPlain(s[1..]);
    }
  }

  lemma {:induction false} ParsedUpdateIsPlain(body: string)
    ensures ParseUpdate(body).GetUpdates? ==>
      IsPlain(ParseUpdate(body).url) && IsPlain(ParseUpdate(body).token) &&
      IsPrintable(ParseUpdate(body).url) && IsPrintable(ParseUpdate(body).token)
  {
    SplitIsFree(body, '&');
    FieldsArePlain(SplitOn(body, '&'));
    var data := FieldsOf(SplitOn(body, '&'));
    if data.Some? {
      FieldIsPlain(data.value, "url");
      FieldIsPlain(data.value, "token");
    }
  }

  lemma {:induction false} FieldIsPlain(fields: map<string, string>, key: string)
    requires forall k :: k in fields ==> IsPlain(fields[k])
    ensures IsPlain(Printable(Strip(Get(fields, key)))) && IsPrintable(Printable(Strip(Get(fields, key))))
  {
    StripIsPlain(Get(fields, key));
    PrintableIsPlain(Strip(Get(fields, key)));
  }

  // ----- any body, field by field -----

  /** The body without a field is the dictionary without one; each further item sets its key; an item with no or more
      than one equals sign makes it malformed. */
  lemma {:induction false} ItemSets(items: seq<string>, item: string)
    ensures FieldsOf([]) == Some(map[])
    ensures FieldsOf(items + [item]) ==
      var parts := SplitOn(item, '=');
      if FieldsOf(items).None? || |parts| != 2 then None else Some(FieldsOf(items).value[parts[0] := parts[1]])
  {
    if items == [] {
      var parts := SplitOn(item, '=');
      assert items + [item] == [item] && [item][1..] == [];
      if |parts| == 2 {
        assert map[parts[0] := parts[1]] + map[] == map[][parts[0] := parts[1]];
      }
    } else {
      var rest, first, parts := FieldsOf(items[1..]), SplitOn(items[0], '='), SplitOn(item, '=');
      ItemSets(items[1..], item);
      assert (items + [item])[1..] == items[1..] + [item] && (items + [item])[0] == items[0];
      if |first| == 2 && |parts| == 2 && rest.Some? {
        assert map[first[0] := first[1]] + rest.value[parts[0] := parts[1]] ==
          (map[first[0] := first[1]] + rest.value)[parts[0] := parts[1]];
      }
    }
  }

  function ValueOf(fields: seq<Field>, key: string): string {
    if fields == [] then "" else if fields[0].key == key then fields[0].value else ValueOf(fields[1..], key)
  }

  lemma {:induction false} FieldsAreFound(fields: seq<Field>, key: string)
    requires AreSeparable(fields) && fields != []
    ensures var d := FieldsOf(SplitOn(Join(Items(fields), '&'), '&'));
      d.Some? && Get(d.value, key) == ValueOf(fields, key)
  {
    ItemsAreRead(fields);
    SplitOfJoin(Items(fields), '&');
    ValueIsField(fields, key);
  }

  lemma {:induction false} ValueIsField(fields: seq<Field>, key: string)
    requires forall i, j :: 0 <= i < j < |fields| ==> fields[i].key != fields[j].key
    ensures forall i :: 0 <= i < |fields| && fields[i].key == key ==> ValueOf(fields, key) == fields[i].value
    ensures (forall i :: 0 <= i < |fields| ==> fields[i].key != key) ==> ValueOf(fields, key) == ""
  {
    if fields != [] && fields[0].key != key {
      var rest := fields[1..];
      ValueIsField(rest, key);
      assert forall i :: 1 <= i < |fields| ==> fields[i] == rest[i - 1];
    }
  }

  /** A message request with any fields in any order: url, token and ids are trimmed, the text also loses its zero
      bytes and newlines, and none of the four may be empty then. */
  lemma {:induction false} AnyMessage(fields: seq<Field>)
    requires AreSeparable(fields) && fields != []
    ensures var m := ParseMessage(Join(Items(fields), '&'));
            var url, token := Strip(ValueOf(fields, "url")), Strip(ValueOf(fields, "token"));
            var ids, text := Strip(ValueOf(fields, "chat_ids")), Strip(ValueOf(fields, "text"));
      && (m == MissingFields <==> url == "" || token == "" || ids == "" || forall x :: x in text ==> x in {NUL, '\n'})
      && (m != MissingFields ==>
            (m.Send? && m.url == url && m.token == token && Join(m.chatIds, ',') == ids &&
             AllFree(m.chatIds, ',') && m.text == Without(Without(text, NUL), '\n')))
  {
    FieldsAreFound(fields, "url");
    FieldsAreFound(fields, "token");
    FieldsAreFound(fields, "chat_ids");
    FieldsAreFound(fields, "text");
    var ids, text := Strip(ValueOf(fields, "chat_ids")), Strip(ValueOf(fields, "text"));
    NothingLeft(text);
    SplitIsFree(ids, ',');
    JoinOfSplit(ids, ',');
  }

  lemma {:induction false} NothingLeft(text: string)
    ensures Without(Without(text, NUL), '\n') == "" <==> forall x :: x in text ==> x in {NUL, '\n'}
  {
    var inner := Without(text, NUL);
    WithoutIsWithin(text, NUL);
    WithoutIsWithin(inner, '\n');
    if Without(inner, '\n') != "" {
      assert Without(inner, '\n')[0] in Without(inner, '\n');
    }
  }

  /** Filtering keeps the characters from space to tilde, in their order. */
  lemma {:induction false} PrintableOf(s: string, c: char)
    ensures Printable("") == "" && Printable(s + [c]) == Printable(s) + (if 32 <= c as int <= 126 then [c] else "")
  {
    PrintableConcat(s, [c]);
    assert [c][1..] == "" && Printable([c]) == (if ' ' <= c <= '~' then [c] else "") + Printable("");
  }

  /** Removing a character keeps the others, in their order. */
  lemma {:induction false} WithoutOf(s: string, c: char, last: char)
    ensures Without("", c) == "" && Without(s + [last], c) == Without(s, c) + (if last == c then "" else [last])
  {
    WithoutConcat(s, [last], c);
    assert [last][1..] == "" && Without([last], c) == (if last == c then "" else [last]) + Without("", c);
  }

  /** An update request with any fields in any order: url and token are trimmed and then filtered, and neither may be
      empty after that. */
  lemma {:induction false} AnyUpdate(fields: seq<Field>)
    requires AreSeparable(fields) && fields != []
    ensures var r := ParseUpdate(Join(Items(fields), '&'));
            var url, token := Printable(Strip(ValueOf(fields, "url"))), Printable(Strip(ValueOf(fields, "token")));
      && (r == MissingUpdateFields <==> url == "" || token == "")
      && (r != MissingUpdateFields ==> r == GetUpdates(url, token))
  {
    FieldsAreFound(fields, "url");
    FieldsAreFound(fields, "token");
  }

  /** A body is malformed exactly when one of its items has not exactly one equals sign. */
  lemma {:induction false} MalformedExactly(body: string)
    ensures ParseMessage(body) == Malformed <==> exists item :: item in SplitOn(body, '&') && |SplitOn(item, '=')| != 2
    ensures ParseUpdate(body) == MalformedUpdate <==>
      exists item :: item in SplitOn(body, '&') && |SplitOn(item, '=')| != 2
  {
    NoFields(SplitOn(body, '&'));
  }

  lemma {:induction false} NoFields(items: seq<string>)
    ensures FieldsOf(items) == None <==> exists item :: item in items && |SplitOn(item, '=')| != 2
  {
    if items != [] {
      var rest := items[1..];
      NoFields(rest);
      assert forall item :: item in items <==> item == items[0] || item in rest;
      if FieldsOf(items) == None && |SplitOn(items[0], '=')| == 2 {
        var item :| item in rest && |SplitOn(item, '=')| != 2;
        assert item in items;
      }
      assert items[0] in items;
    }
  }
}
