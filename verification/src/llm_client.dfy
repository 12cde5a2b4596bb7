/** `core/llm_client.py` without the network: prompt templates, the
    per-session conversation history, the registry of callable functions,
    and the message list `LLMService` sends and the history it keeps.

    The model's reply, the chunks of a streamed reply, what `str.format`
    makes of a template and what a registered function returns or raises
    are parameters. */
module LlmClient {
  import opened Wrappers
  import Dicts
  import Seqs
  import Json

  /** `Message(role, content)`; the service never sets `name` or
      `function_call`. */
  datatype Message = Message(role: string, content: string)

  // ------------------------------------------------------- prompt templates

  /** `PromptTemplate(template, required_vars)`; `None` for the variables
      is the empty list. */
  datatype Template = Template(template: string, required: seq<string>)

  /** What `template.format(**kwargs)` does: the text, or the `KeyError`
      for the first replacement field it finds no argument for. */
  datatype Rendering = Rendered(text: string) | NoKey(key: string)

  /** The prompt, or the message of the `ValueError` that `format` raises. */
  datatype Formatted = Prompted(text: string) | Refused(message: string)

  /** The required variables the keyword arguments lack, in order. */
  function MissingVars(required: seq<string>, given: set<string>): (r: seq<string>)
    ensures forall v :: v in r <==> v in required && v !in given
    ensures |r| == 0 <==> forall v :: v in required ==> v in given
  {
    var r := Seqs.Filter(required, v => v !in given);
    assert |r| > 0 ==> r[0] in r;
    r
  }

  /** Python's `str(list_of_strings)`. */
  function ListRepr(xs: seq<string>): string {
    Json.Repr(Json.List(seq(|xs|, i requires 0 <= i < |xs| => Json.Str(xs[i]))))
  }

  /** `PromptTemplate.format(**kwargs)`, where `given` is the set of
      keyword names. */
  function Format(t: Template, given: set<string>, render: Rendering): (r: Formatted)
    ensures (exists v :: v in t.required && v !in given)
            ==> r == Refused("缺少必需变量: " + ListRepr(MissingVars(t.required, given)))
    ensures (forall v :: v in t.required ==> v in given) && render.NoKey?
            ==> r == Refused("模板变量错误: '" + render.key + "'")
    ensures r.Prompted? ==> render == Rendered(r.text)
  {
    var missing := MissingVars(t.required, given);
    if |missing| > 0 then Refused("缺少必需变量: " + ListRepr(missing))
    else
      match render
      case Rendered(s) => Prompted(s)
      case NoKey(k) => Refused("模板变量错误: '" + k + "'")
  }

  /** `format` gives a prompt exactly when every required variable is
      given and the template renders; a missing variable is reported
      whatever the template would have done. */
  lemma FormatPrompts(t: Template, given: set<string>, render: Rendering)
    ensures Format(t, given, render).Prompted? <==> (forall v :: v in t.required ==> v in given) && render.Rendered?
    ensures (exists v :: v in t.required && v !in given) ==> forall render' :: Format(t, given, render') == Format(t, given, render)
  {
  }

  // -------------------------------------------------------- conversations

  /** `ConversationManager`: the history bound and each session's
      messages. */
  datatype Conversations = Conversations(maxHistory: int, sessions: Dicts.Dict<string, seq<Message>>)

  const DefaultMaxHistory := 10

  /** The last `min(n, |xs|)` items. */
  function Last<T>(xs: seq<T>, n: nat): (r: seq<T>)
    ensures |r| == if n < |xs| then n else |xs|
    ensures r == xs[|xs| - |r|..]
  {
    if n < |xs| then xs[|xs| - n..] else xs
  }

  /** `get_conversation`: a session's messages, or `[]` for an unknown
      session. */
  function GetConversation(c: Conversations, sid: string): (r: seq<Message>)
    ensures sid !in Dicts.Keys(c.sessions) ==> r == []
    ensures sid in Dicts.Keys(c.sessions) ==> (sid, r) in c.sessions
  {
    Dicts.Get(c.sessions, sid).GetOr([])
  }

  /** `add_message`: the message is appended, and a history longer than
      `max_history` is cut to `history[-max_history:]`.  That keeps the
      newest `max_history` messages for a positive bound, everything for a
      bound of 0 (`h[-0:]` is all of `h`), and drops the oldest `-bound`
      messages for a negative one. */
  function AddMessage(c: Conversations, sid: string, m: Message): (r: Conversations)
    ensures var h := GetConversation(c, sid) + [m];
            var got := GetConversation(r, sid);
            && (c.maxHistory >= 1 ==> got == Last(h, c.maxHistory))
            && (c.maxHistory == 0 ==> got == h)
            && (c.maxHistory < 0 ==> got == h[if -c.maxHistory < |h| then -c.maxHistory else |h|..])
    ensures forall n :: n != sid ==> GetConversation(r, n) == GetConversation(c, n)
    ensures r.maxHistory == c.maxHistory
    ensures Dicts.Valid(c.sessions) ==> Dicts.Valid(r.sessions)
  {
    c.(sessions := Dicts.Put(c.sessions, sid, Trim(GetConversation(c, sid) + [m], c.maxHistory)))
  }

  /** `h[-max_history:]` when `h` is longer than `max_history`, else `h`. */
  function Trim(h: seq<Message>, max: int): (r: seq<Message>)
    requires |h| > 0
    ensures max >= 1 ==> r == Last(h, max)
    ensures max == 0 ==> r == h
    ensures max < 0 ==> r == h[if -max < |h| then -max else |h|..]
  {
    if |h| > max then Seqs.PySuffix(h, max) else h
  }

  /** Every session holds at most `max_history` messages. */
  ghost predicate Bounded(c: Conversations) {
    forall n :: |GetConversation(c, n)| <= c.maxHistory
  }

  /** With a positive bound, adding a message keeps every session within
      the bound and puts the new message last. */
  lemma AddMessageBounded(c: Conversations, sid: string, m: Message)
    requires c.maxHistory >= 1 && Bounded(c)
    ensures Bounded(AddMessage(c, sid, m))
    ensures var got := GetConversation(AddMessage(c, sid, m), sid);
            |got| > 0 && got[|got| - 1] == m
  {
    var r := AddMessage(c, sid, m);
    forall n ensures |GetConversation(r, n)| <= r.maxHistory {
      if n != sid {
        assert GetConversation(r, n) == GetConversation(c, n);
      }
    }
  }

  /** With a bound of 0 nothing is ever dropped: each message lengthens
      its session by one. */
  lemma ZeroKeepsAll(c: Conversations, sid: string, m: Message)
    requires c.maxHistory == 0
    ensures GetConversation(AddMessage(c, sid, m), sid) == GetConversation(c, sid) + [m]
  {
  }

  /** Keeping the newest `n` after each of two appends keeps the newest `n`
      of both. */
  lemma LastSnoc<T>(xs: seq<T>, y: T, n: nat)
    requires n >= 1
    ensures Last(Last(xs, n) + [y], n) == Last(xs + [y], n)
  {
    if n < |xs| {
      assert Last(xs, n) + [y] == (xs + [y])[|xs| - n..];
      assert (xs + [y])[|xs| - n..][1..] == (xs + [y])[|xs| + 1 - n..];
    }
  }

  /** Two messages added in a row with a positive bound leave the newest
      `max_history` of the history followed by both. */
  lemma AddTwice(c: Conversations, sid: string, a: Message, b: Message)
    requires c.maxHistory >= 1
    ensures GetConversation(AddMessage(AddMessage(c, sid, a), sid, b), sid)
            == Last(GetConversation(c, sid) + [a, b], c.maxHistory)
  {
    var h := GetConversation(c, sid);
    LastSnoc(h + [a], b, c.maxHistory);
    assert h + [a] + [b] == h + [a, b];
  }

  /** `clear_conversation`: the session is forgotten. */
  function ClearConversation(c: Conversations, sid: string): (r: Conversations)
    requires Dicts.Valid(c.sessions)
    ensures GetConversation(r, sid) == []
    ensures sid !in Dicts.Keys(r.sessions)
    ensures forall n :: n != sid ==> GetConversation(r, n) == GetConversation(c, n)
    ensures r.maxHistory == c.maxHistory && Dicts.Valid(r.sessions)
  {
    c.(sessions := Dicts.Delete(c.sessions, sid))
  }

  /** Clearing a session undoes whatever was added to it: adding then
      clearing is clearing. */
  lemma AddThenClear(c: Conversations, sid: string, m: Message, n: string)
    requires Dicts.Valid(c.sessions)
    ensures GetConversation(ClearConversation(AddMessage(c, sid, m), sid), n)
            == GetConversation(ClearConversation(c, sid), n)
  {
  }

  // ---------------------------------------------------------- the service

  /** Python truthiness of an optional string. */
  predicate Truthy(s: Option<string>) {
    s.Some? && s.value != ""
  }

  /** The history a call sends: the session's, when it asks for history
      and names a session. */
  function History(c: Conversations, sid: Option<string>, useHistory: bool): seq<Message> {
    if useHistory && Truthy(sid) then GetConversation(c, sid.value) else []
  }

  /** The system message, when a system prompt is given. */
  function SystemPart(system: Option<string>): (h: seq<Message>)
    ensures |h| == if Truthy(system) then 1 else 0
    ensures Truthy(system) ==> h[0] == Message("system", system.value)
  {
    if Truthy(system) then [Message("system", system.value)] else []
  }

  /** A request: the system prompt when one is given, then the history,
      then the user's prompt. */
  function Request(system: Option<string>, hist: seq<Message>, prompt: string): (r: seq<Message>)
    ensures |r| == |SystemPart(system)| + |hist| + 1
    ensures Truthy(system) ==> r[0] == Message("system", system.value)
    ensures forall i :: 0 <= i < |hist| ==> r[|SystemPart(system)| + i] == hist[i]
    ensures r[|r| - 1] == Message("user", prompt)
  {
    SystemPart(system) + hist + [Message("user", prompt)]
  }

  /** The messages `generate_text` sends: the system prompt when one is
      given, the session's history when `use_history` is set and a session
      is named, and the user's prompt last. */
  function Messages(c: Conversations, prompt: string, sid: Option<string>, system: Option<string>,
                    useHistory: bool): (r: seq<Message>)
    ensures |r| >= 1 && r[|r| - 1] == Message("user", prompt)
    ensures useHistory && Truthy(sid) ==> r == Request(system, GetConversation(c, sid.value), prompt)
    ensures !(useHistory && Truthy(sid)) ==> r == Request(system, [], prompt)
  {
    Request(system, History(c, sid, useHistory), prompt)
  }

  /** The request carries no earlier message unless history is asked for
      and a session is named. */
  lemma NoHistoryWithoutSession(c: Conversations, prompt: string, sid: Option<string>, system: Option<string>,
                                useHistory: bool)
    requires !useHistory || !Truthy(sid)
    ensures forall msg :: msg in Messages(c, prompt, sid, system, useHistory) ==> msg.role != "assistant"
  {
  }

  /** `generate_text` with the model's reply given: the messages sent and
      the conversations afterwards.  A named session gains the user's
      message and then the assistant's reply. */
  function GenerateText(c: Conversations, prompt: string, sid: Option<string>, system: Option<string>,
                        useHistory: bool, reply: string): (r: (seq<Message>, Conversations))
    ensures r.0 == Messages(c, prompt, sid, system, useHistory)
    ensures !Truthy(sid) ==> r.1 == c
    ensures Truthy(sid) ==> forall n :: n != sid.value ==> GetConversation(r.1, n) == GetConversation(c, n)
    ensures Truthy(sid) && c.maxHistory >= 1
            ==> GetConversation(r.1, sid.value)
                == Last(GetConversation(c, sid.value) + [Message("user", prompt), Message("assistant", reply)], c.maxHistory)
    ensures Truthy(sid) && c.maxHistory == 0
            ==> GetConversation(r.1, sid.value)
                == GetConversation(c, sid.value) + [Message("user", prompt), Message("assistant", reply)]
  {
    Recorded(c, prompt, sid, reply);
    (Messages(c, prompt, sid, system, useHistory), Record(c, prompt, sid, reply))
  }

  /** The history `generate_text` and `stream_generate` keep: the user's
      message and then the reply, when a session is named. */
  function Record(c: Conversations, prompt: string, sid: Option<string>, reply: string): Conversations {
    if Truthy(sid) then AddMessage(AddMessage(c, sid.value, Message("user", prompt)), sid.value, Message("assistant", reply))
    else c
  }

  lemma Recorded(c: Conversations, prompt: string, sid: Option<string>, reply: string)
    ensures var r := Record(c, prompt, sid, reply);
            && (!Truthy(sid) ==> r == c)
            && (Truthy(sid) ==> forall n :: n != sid.value ==> GetConversation(r, n) == GetConversation(c, n))
            && (Truthy(sid) && c.maxHistory >= 1
                ==> GetConversation(r, sid.value)
                    == Last(GetConversation(c, sid.value) + [Message("user", prompt), Message("assistant", reply)], c.maxHistory))
            && (Truthy(sid) && c.maxHistory == 0
                ==> GetConversation(r, sid.value)
                    == GetConversation(c, sid.value) + [Message("user", prompt), Message("assistant", reply)])
  {
    if Truthy(sid) {
      var user, answer := Message("user", prompt), Message("assistant", reply);
      if c.maxHistory >= 1 {
        AddTwice(c, sid.value, user, answer);
      } else if c.maxHistory == 0 {
        assert GetConversation(c, sid.value) + [user] + [answer] == GetConversation(c, sid.value) + [user, answer];
      }
    }
  }

  /** `generate_with_template`: a template that fails to format raises
      before anything is sent or recorded. */
  function GenerateWithTemplate(c: Conversations, t: Template, given: set<string>, render: Rendering,
                                sid: Option<string>, system: Option<string>, useHistory: bool,
                                reply: string): (r: Result<(seq<Message>, Conversations)>)
    ensures r.Raise? <==> Format(t, given, render).Refused?
    ensures r.Raise? ==> r.exc == ValueError
    ensures r.Ok? ==> r.value == GenerateText(c, Format(t, given, render).text, sid, system, useHistory, reply)
  {
    match Format(t, given, render)
    case Refused(_) => Raise(ValueError)
    case Prompted(p) => Ok(GenerateText(c, p, sid, system, useHistory, reply))
  }

  lemma {:induction false} FlattenSnoc(xss: seq<string>, x: string)
    ensures Seqs.Flatten(xss + [x]) == Seqs.Flatten(xss) + x
  {
    if |xss| > 0 {
      assert (xss + [x])[1..] == xss[1..] + [x];
      FlattenSnoc(xss[1..], x);
    } else {
      assert [x][1..] == [];
    }
  }

  /** `stream_generate`: the chunks are collected into the full reply, and
      the call is `generate_text` with history always asked for. */
  method StreamGenerate(c: Conversations, prompt: string, sid: Option<string>, system: Option<string>,
                        chunks: seq<string>) returns (sent: seq<Message>, full: string, c': Conversations)
    ensures full == Seqs.Flatten(chunks)
    ensures forall i :: 0 <= i < |chunks| ==> |chunks[i]| <= |full|
    ensures (sent, c') == GenerateText(c, prompt, sid, system, true, full)
  {
    sent := Messages(c, prompt, sid, system, true);
    full := "";
    var i := 0;
    while i < |chunks|
      invariant 0 <= i <= |chunks|
      invariant full == Seqs.Flatten(chunks[..i])
    {
      FlattenSnoc(chunks[..i], chunks[i]);
      assert chunks[..i + 1] == chunks[..i] + [chunks[i]];
      full := full + chunks[i];
      i := i + 1;
    }
    assert chunks[..i] == chunks;
    forall j | 0 <= j < |chunks| ensures |chunks[j]| <= |full| {
      FlattenHolds(chunks, j);
    }
    var r := GenerateText(c, prompt, sid, system, true, full);
    c' := r.1;
  }

  /** Each chunk is a piece of the concatenation. */
  lemma {:induction false} FlattenHolds(xss: seq<string>, j: nat)
    requires j < |xss|
    ensures |xss[j]| <= |Seqs.Flatten(xss)|
  {
    if j > 0 {
      FlattenHolds(xss[1..], j - 1);
    }
  }

  // ----------------------------------------------------- function calling

  /** A registered function's definition; the callable is not modelled. */
  datatype Definition = Definition(name: string, description: string, parameters: Json.Value)

  type Functions = Dicts.Dict<string, Definition>

  /** Every entry's definition carries the entry's own name. */
  predicate Named(fs: Functions) {
    forall i :: 0 <= i < |fs| ==> fs[i].1.name == fs[i].0
  }

  /** `register_function`: a new name goes last, a registered one is
      replaced in place. */
  function RegisterFunction(fs: Functions, name: string, description: string, parameters: Json.Value): (r: Functions)
    ensures Dicts.Get(r, name) == Some(Definition(name, description, parameters))
    ensures forall n :: n != name ==> Dicts.Get(r, n) == Dicts.Get(fs, n)
    ensures Dicts.Keys(r) == if name in Dicts.Keys(fs) then Dicts.Keys(fs) else Dicts.Keys(fs) + [name]
    ensures Dicts.Valid(fs) ==> Dicts.Valid(r)
  {
    Dicts.Put(fs, name, Definition(name, description, parameters))
  }

  /** Registering keeps each definition under its own name. */
  lemma RegisterNamed(fs: Functions, name: string, description: string, parameters: Json.Value)
    requires Dicts.Valid(fs) && Named(fs)
    ensures Named(RegisterFunction(fs, name, description, parameters))
  {
    var r := RegisterFunction(fs, name, description, parameters);
    forall i | 0 <= i < |r| ensures r[i].1.name == r[i].0 {
      Dicts.GetEntry(r, i);
      var k := r[i].0;
      if k != name {
        var j :| 0 <= j < |fs| && fs[j] == (k, r[i].1);
      }
    }
  }

  /** `get_function_definitions`: the definitions in registration order. */
  function FunctionDefinitions(fs: Functions): (r: seq<Definition>)
    ensures |r| == |fs|
    ensures Named(fs) ==> forall i :: 0 <= i < |r| ==> r[i].name == Dicts.Keys(fs)[i]
    ensures Dicts.Valid(fs) && Named(fs) ==> forall i :: 0 <= i < |r| ==> Dicts.Get(fs, r[i].name) == Some(r[i])
  {
    var r := Dicts.Values(fs);
    if Dicts.Valid(fs) && Named(fs) then
      FunctionDefinitionsFound(fs);
      r
    else r
  }

  lemma FunctionDefinitionsFound(fs: Functions)
    requires Dicts.Valid(fs) && Named(fs)
    ensures forall i :: 0 <= i < |fs| ==> Dicts.Get(fs, fs[i].1.name) == Some(fs[i].1)
  {
    forall i | 0 <= i < |fs| ensures Dicts.Get(fs, fs[i].1.name) == Some(fs[i].1) {
      Dicts.GetEntry(fs, i);
    }
  }

  /** What running a registered function comes to: `json.dumps` of its
      result, or `str(e)` of the exception raised while parsing the
      arguments, calling the function or dumping its result. */
  datatype Call = Returned(json: string) | Failed(error: string)

  /** `call_function`'s reply, or the message of its `ValueError` for an
      unregistered name. */
  datatype Reply = Replied(text: string) | UnknownFunction(message: string)

  /** `call_function(name, arguments)`. */
  function CallFunction(fs: Functions, name: string, outcome: Call): (r: Reply)
    ensures r.UnknownFunction? <==> name !in Dicts.Keys(fs)
    ensures r.UnknownFunction? ==> r.message == "未知函数: " + name
    ensures name in Dicts.Keys(fs) && outcome.Returned? ==> r == Replied(outcome.json)
    ensures name in Dicts.Keys(fs) && outcome.Failed? ==> r == Replied(ErrorReply(outcome.error))
  {
    if Dicts.Get(fs, name).None? then UnknownFunction("未知函数: " + name)
    else
      match outcome
      case Returned(j) => Replied(j)
      case Failed(e) => Replied(ErrorReply(e))
  }

  // -------------------------------------- json.dumps of the error object

  /** `json.dumps({"error": e}, ensure_ascii=False)`. */
  function ErrorReply(e: string): string {
    "{\"error\": " + Quote(e) + "}"
  }

  /** `json.dumps(s, ensure_ascii=False)` for a string. */
  function Quote(s: string): string {
    "\"" + Escaped(s) + "\""
  }

  function HexDigit(n: nat): char
    requires n < 16
  {
    "0123456789abcdef"[n]
  }

  /** How `json.dumps` writes one character with `ensure_ascii=False`:
      the quote, the backslash and the control characters are escaped,
      the short forms where JSON has one and `\u00xx` otherwise. */
  function EscapeChar(c: char): (r: string)
    ensures |r| >= 1
    ensures c != '"' && c != '\\' && c as int >= 0x20 <==> r == [c]
  {
    if c == '"' then "\\\""
    else if c == '\\' then "\\\\"
    else if c == '\n' then "\\n"
    else if c == '\r' then "\\r"
    else if c == '\t' then "\\t"
    else if c as int == 8 then "\\b"
    else if c as int == 12 then "\\f"
    else if c as int < 0x20 then "\\u00" + [HexDigit(c as int / 16), HexDigit(c as int % 16)]
    else [c]
  }

  function Escaped(s: string): string {
    if |s| == 0 then "" else EscapeChar(s[0]) + Escaped(s[1..])
  }

  /** The value of a lower-case hexadecimal digit. */
  function HexValue(c: char): (r: Option<nat>)
    ensures r.Some? ==> r.value < 16
  {
    if '0' <= c <= '9' then Some(c as int - '0' as int)
    else if 'a' <= c <= 'f' then Some(c as int - 'a' as int + 10)
    else None
  }

  /** The character a short escape `\x` stands for. */
  function ShortEscape(c: char): Option<char> {
    if c == '"' then Some('"')
    else if c == '\\' then Some('\\')
    else if c == 'n' then Some('\n')
    else if c == 'r' then Some('\r')
    else if c == 't' then Some('\t')
    else if c == 'b' then Some(8 as char)
    else if c == 'f' then Some(12 as char)
    else None
  }

  /** Reads the body of a JSON string back: the inverse of `Escaped`, and
      `None` for a bare quote, a bare control character or an escape it
      does not know. */
  function Unescape(t: string): (r: Option<string>)
    decreases |t|
  {
    if |t| == 0 then Some("")
    else if t[0] == '\\' then
      if |t| >= 2 && ShortEscape(t[1]).Some? then
        match Unescape(t[2..])
        case Some(rest) => Some([ShortEscape(t[1]).value] + rest)
        case None => None
      else if |t| >= 6 && t[1] == 'u' && HexValue(t[2]).Some? && HexValue(t[3]).Some?
              && HexValue(t[4]).Some? && HexValue(t[5]).Some? then
        var v := HexValue(t[2]).value * 4096 + HexValue(t[3]).value * 256 + HexValue(t[4]).value * 16
                 + HexValue(t[5]).value;
        if 0xD800 <= v < 0xE000 then None
        else
          match Unescape(t[6..])
          case Some(rest) => Some([v as char] + rest)
          case None => None
      else None
    else if t[0] == '"' || t[0] as int < 0x20 then None
    else
      match Unescape(t[1..])
      case Some(rest) => Some([t[0]] + rest)
      case None => None
  }

  lemma UnescapeChar(c: char, tail: string)
    ensures Unescape(EscapeChar(c) + tail) == match Unescape(tail)
                                              case Some(rest) => Some([c] + rest)
                                              case None => None
  {
    if c as int < 0x20 && c != '\n' && c != '\r' && c != '\t' && c as int != 8 && c as int != 12 {
      UnescapeControl(c, tail);
    } else if |EscapeChar(c)| == 2 {
      UnescapeShort(c, tail);
    } else {
      assert (EscapeChar(c) + tail)[1..] == tail;
    }
  }

  lemma UnescapeControl(c: char, tail: string)
    requires c as int < 0x20 && c != '\n' && c != '\r' && c != '\t' && c as int != 8 && c as int != 12
    ensures Unescape(EscapeChar(c) + tail) == match Unescape(tail)
                                              case Some(rest) => Some([c] + rest)
                                              case None => None
  {
    var t := EscapeChar(c) + tail;
    var hi, lo := c as int / 16, c as int % 16;
    assert t[..6] == ['\\', 'u', '0', '0', HexDigit(hi), HexDigit(lo)];
    assert HexValue(HexDigit(hi)) == Some(hi);
    assert HexValue(HexDigit(lo)) == Some(lo);
    assert t[6..] == tail;
  }

  lemma UnescapeShort(c: char, tail: string)
    requires |EscapeChar(c)| == 2
    ensures Unescape(EscapeChar(c) + tail) == match Unescape(tail)
                                              case Some(rest) => Some([c] + rest)
                                              case None => None
  {
    var t := EscapeChar(c) + tail;
    assert t[2..] == tail;
  }

  /** The error reply's string reads back as the exception's text. */
  lemma {:induction false} EscapedRoundTrip(s: string)
    ensures Unescape(Escaped(s)) == Some(s)
  {
    if |s| > 0 {
      EscapedRoundTrip(s[1..]);
      UnescapeChar(s[0], Escaped(s[1..]));
      assert [s[0]] + s[1..] == s;
    }
  }

  /** The error reply is `{"error": "…"}` with the exception's text,
      escaped, between the quotes. */
  lemma ErrorReplyDecodes(e: string)
    ensures var r := ErrorReply(e);
            && |r| >= 13 && r[..11] == "{\"error\": \"" && r[|r| - 2..] == "\"}"
            && Unescape(r[11..|r| - 2]) == Some(e)
  {
    var r := ErrorReply(e);
    assert r == "{\"error\": \"" + Escaped(e) + "\"}";
    assert r[11..|r| - 2] == Escaped(e);
    EscapedRoundTrip(e);
  }
}
