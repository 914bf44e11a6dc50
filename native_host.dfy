/** The native messaging host: reads one request at a time, writes `user.js`
    into the default Firefox profile or restarts Firefox, and answers each
    JSON-object request with exactly one response; a null message stops the
    host, and any other message, a cut-off length or unreadable JSON ends it
    without an answer. */
module NativeHost {
  import opened Wrappers
  import opened JsValues
  import opened NativeFraming
  import ProfilesIni

  /** What the host finds on the machine. `mozillaDir` is the platform's
      Mozilla directory; `profilesIni` the lines of its `profiles.ini` (`None`
      when the file does not exist); `openErrors` the files that
      `open(path, 'w')` refuses, each with the text of the error; and
      `restartWorks` whether `restart_firefox()` succeeds. */
  datatype Env = Env(
    mozillaDir: string,
    profilesIni: Option<seq<string>>,
    openErrors: map<string, string>,
    restartWorks: bool)

  /** The effects of the host on the machine: file contents, and how many
      times it restarted Firefox. */
  datatype HostState = HostState(files: map<string, string>, restarts: nat)

  /** `{'success': ..., 'error': ...}`. */
  datatype Response = Response(success: bool, error: Option<string>)

  const Done: Response := Response(true, None)

  function Failed(error: string): Response {
    Response(false, Some(error))
  }

  function ResponseJson(r: Response): Json {
    JObj([("success", JBool(r.success))] + if r.error.Some? then [("error", JStr(r.error.value))] else [])
  }

  /** What the loop body does with one message: stop (`get_message()`
      returned `None`), answer it, or raise outside the `try` block, which
      ends the program. */
  datatype Handled = Stop | Answer(response: Response) | Uncaught

  /** How the `TypeError` of `f.write(v)` names the type of a parsed JSON
      value that is not a string: `None` itself, otherwise the type's name. */
  function ArgTypeName(v: Json): (name: string)
    ensures name in ArgTypeNames
  {
    match v
    case JNull => "None"
    case JBool(_) => "bool"
    case JNum(_) => "int"
    case JStr(_) => "str"
    case JArr(_) => "list"
    case JObj(_) => "dict"
  }

  const ArgTypeNames: set<string> := {"None", "bool", "int", "str", "list", "dict"}

  const WriteTypeError: string := "write() argument must be str, not "
  const NoProfileError: string := "Could not find Firefox profile directory"
  const RestartError: string := "Failed to restart Firefox"
  const UnknownCommandError: string := "Unknown command"

  const UserJsName: string := "user.js"

  /** The `WRITE_USER_JS` branch. The file is opened for writing, and so
      emptied, before `message['content']` is read. */
  function WriteUserJs(env: Env, st: HostState, message: Fields): (r: (Response, HostState))
    ensures r.0.success <==> r.0.error.None?
    ensures r.1.restarts == st.restarts
  {
    match ProfilesIni.ProfileDir(env.mozillaDir, env.profilesIni)
    case None => (Failed(NoProfileError), st)
    case Some(dir) =>
      var path := ProfilesIni.PathJoin(dir, UserJsName);
      if path in env.openErrors then (Failed(env.openErrors[path]), st)
      else
        var emptied := st.(files := st.files[path := ""]);
        match Lookup(message, "content")
        case None => (Failed("'content'"), emptied)
        case Some(JStr(text)) => (Done, st.(files := st.files[path := text]))
        case Some(v) => (Failed(WriteTypeError + ArgTypeName(v)), emptied)
  }

  /** One turn of the loop in `main` once a message is read, from the `None`
      test to choosing the response. JSON `null` reads as `None`. */
  function Handle(env: Env, st: HostState, message: Json): (r: (Handled, HostState))
    ensures r.0.Stop? <==> message == JNull
    ensures r.0.Uncaught? <==> !message.JObj? && message != JNull
    ensures !r.0.Answer? ==> r.1 == st
  {
    if message == JNull then (Stop, st)
    else if !message.JObj? then (Uncaught, st)
    else
      var cmd := Lookup(message.fields, "cmd");
      if cmd == Some(JStr("WRITE_USER_JS")) then
        var (response, st') := WriteUserJs(env, st, message.fields);
        (Answer(response), st')
      else if cmd == Some(JStr("RESTART_BROWSER")) then
        (Answer(if env.restartWorks then Done else Failed(RestartError)),
         st.(restarts := st.restarts + 1))
      else (Answer(Failed(UnknownCommandError)), st)
  }

  /** Where a `WRITE_USER_JS` request writes. */
  function UserJsPath(env: Env): Option<string> {
    match ProfilesIni.ProfileDir(env.mozillaDir, env.profilesIni)
    case None => None
    case Some(dir) => Some(ProfilesIni.PathJoin(dir, UserJsName))
  }

  /** A `WRITE_USER_JS` request succeeds exactly when a profile is found, its
      user.js can be opened and the request carries a string `content`; then
      user.js holds that content. No other file changes. Once the file is
      opened, a request without a string `content` leaves it empty. Each
      failure carries `str(e)` of the exception that caused it. */
  lemma WriteUserJsEffect(env: Env, st: HostState, message: Fields)
    ensures var (response, st') := WriteUserJs(env, st, message);
      && st'.restarts == st.restarts
      && (response.success <==>
            UserJsPath(env).Some? && UserJsPath(env).value !in env.openErrors
            && Lookup(message, "content").Some? && Lookup(message, "content").value.JStr?)
      && (response.success ==>
            && response.error == None
            && st'.files == st.files[UserJsPath(env).value := Lookup(message, "content").value.s])
      && (UserJsPath(env).Some? && UserJsPath(env).value !in env.openErrors && !response.success ==>
            st'.files == st.files[UserJsPath(env).value := ""])
      && (UserJsPath(env).None? || UserJsPath(env).value in env.openErrors ==> st'.files == st.files)
      && (!response.success ==> response.error.Some?)
    ensures UserJsPath(env).None? ==> WriteUserJs(env, st, message).0 == Failed(NoProfileError)
    ensures UserJsPath(env).Some? && UserJsPath(env).value in env.openErrors ==>
      WriteUserJs(env, st, message).0 == Failed(env.openErrors[UserJsPath(env).value])
    ensures UserJsPath(env).Some? && UserJsPath(env).value !in env.openErrors && Lookup(message, "content").None? ==>
      WriteUserJs(env, st, message).0 == Failed("'content'")
    ensures (UserJsPath(env).Some? && UserJsPath(env).value !in env.openErrors
             && Lookup(message, "content").Some? && !Lookup(message, "content").value.JStr?) ==>
      WriteUserJs(env, st, message).0 == Failed(WriteTypeError + ArgTypeName(Lookup(message, "content").value))
  {
  }

  /** The requests the browser extension sends carry `settings`, not
      `content`: such a request empties the profile's user.js and reports the
      missing key. */
  lemma SettingsRequestEmptiesUserJs(env: Env, st: HostState, settings: Json)
    requires UserJsPath(env).Some? && UserJsPath(env).value !in env.openErrors
    ensures Handle(env, st, JObj([("cmd", JStr("WRITE_USER_JS")), ("settings", settings)]))
         == (Answer(Failed("'content'")), st.(files := st.files[UserJsPath(env).value := ""]))
  {
    var f: Fields := [("cmd", JStr("WRITE_USER_JS")), ("settings", settings)];
    assert f[1..][1..] == [];
    assert Lookup(f, "cmd") == Some(JStr("WRITE_USER_JS"));
    assert Lookup(f, "content") == None;
  }

  /** A request with `content` null reaches `f.write(None)`, whose
      `TypeError` names the type as `None`; user.js is left empty. */
  lemma NullContentError(env: Env, st: HostState)
    requires UserJsPath(env).Some? && UserJsPath(env).value !in env.openErrors
    ensures Handle(env, st, JObj([("cmd", JStr("WRITE_USER_JS")), ("content", JNull)]))
         == (Answer(Failed("write() argument must be str, not None")),
             st.(files := st.files[UserJsPath(env).value := ""]))
  {
    var f: Fields := [("cmd", JStr("WRITE_USER_JS")), ("content", JNull)];
    assert f[1..][1..] == [];
    assert Lookup(f, "cmd") == Some(JStr("WRITE_USER_JS"));
    assert Lookup(f, "content") == Some(JNull);
    assert WriteTypeError + ArgTypeName(JNull) == "write() argument must be str, not None";
  }

  /** `RESTART_BROWSER` restarts Firefox once and reports whether that
      worked; any other `cmd`, or none, gets `Unknown command` and changes
      nothing. */
  lemma CommandReplies(env: Env, st: HostState, message: Fields)
    ensures Lookup(message, "cmd") == Some(JStr("RESTART_BROWSER")) ==>
      Handle(env, st, JObj(message))
        == (Answer(if env.restartWorks then Response(true, None) else Response(false, Some("Failed to restart Firefox"))),
            HostState(st.files, st.restarts + 1))
    ensures Lookup(message, "cmd") !in {Some(JStr("WRITE_USER_JS")), Some(JStr("RESTART_BROWSER"))} ==>
      Handle(env, st, JObj(message)) == (Answer(Response(false, Some("Unknown command"))), st)
  {
  }

  /** Every response the host can give on the machine `env`: finitely many. */
  ghost function HostResponses(env: Env): set<Response> {
    {Done, Failed(NoProfileError), Failed("'content'"), Failed(RestartError), Failed(UnknownCommandError)}
      + (set name | name in ArgTypeNames :: Failed(WriteTypeError + name))
      + (set e | e in env.openErrors.Values :: Failed(e))
  }

  /** Each of the host's responses is short enough to be framed. */
  ghost predicate HostResponsesFit(c: Codec, env: Env) {
    forall r :: r in HostResponses(env) ==> Fits(c, ResponseJson(r))
  }

  /** Whatever the request, the host answers with one of those responses. */
  lemma HandleResponses(env: Env, st: HostState, message: Json)
    ensures Handle(env, st, message).0.Answer? ==> Handle(env, st, message).0.response in HostResponses(env)
  {
    if message.JObj? && Lookup(message.fields, "cmd") == Some(JStr("WRITE_USER_JS")) {
      match ProfilesIni.ProfileDir(env.mozillaDir, env.profilesIni)
      case None =>
      case Some(dir) =>
        var path := ProfilesIni.PathJoin(dir, UserJsName);
        if path in env.openErrors {
          assert env.openErrors[path] in env.openErrors.Values;
        } else {
          match Lookup(message.fields, "content")
          case None =>
          case Some(JStr(_)) =>
          case Some(v) =>
            assert ArgTypeName(v) in ArgTypeNames;
        }
    }
  }

  /** The host program's view of the machine, updated in place. */
  class Host {
    const env: Env
    var files: map<string, string>
    var restarts: nat

    function State(): HostState
      reads this
    {
      HostState(files, restarts)
    }

    constructor (env: Env, files: map<string, string>)
      ensures this.env == env && State() == HostState(files, 0)
    {
      this.env := env;
      this.files := files;
      restarts := 0;
    }

    /** `restart_firefox()`. */
    method RestartFirefox() returns (ok: bool)
      modifies this
      ensures ok == env.restartWorks
      ensures files == old(files) && restarts == old(restarts) + 1
    {
      restarts := restarts + 1;
      ok := env.restartWorks;
    }

    /** The `WRITE_USER_JS` branch of `main`. */
    method WriteUserJsFile(message: Fields) returns (response: Response)
      modifies this
      ensures (response, State()) == WriteUserJs(env, old(State()), message)
    {
      var profileDir := ProfilesIni.GetProfileDir(env.mozillaDir, env.profilesIni);
      if profileDir.None? {
        return Failed(NoProfileError);
      }
      var userJsPath := ProfilesIni.PathJoin(profileDir.value, UserJsName);
      if userJsPath in env.openErrors {
        return Failed(env.openErrors[userJsPath]);
      }
      files := files[userJsPath := ""];
      var content := Lookup(message, "content");
      if content.None? {
        // KeyError('content')
        return Failed("'content'");
      }
      if !content.value.JStr? {
        return Failed(WriteTypeError + ArgTypeName(content.value));
      }
      files := files[userJsPath := content.value.s];
      assert files == old(files)[userJsPath := content.value.s];
      return Done;
    }

    /** The body of the loop in `main` after `get_message()`. */
    method HandleMessage(message: Json) returns (outcome: Handled)
      modifies this
      ensures (outcome, State()) == Handle(env, old(State()), message)
    {
      if message == JNull {
        return Stop;
      }
      if !message.JObj? {
        // message.get('cmd') raises AttributeError outside the try block.
        return Uncaught;
      }
      var cmd := Lookup(message.fields, "cmd");
      var response := Failed(UnknownCommandError);
      if cmd == Some(JStr("WRITE_USER_JS")) {
        response := WriteUserJsFile(message.fields);
      } else if cmd == Some(JStr("RESTART_BROWSER")) {
        var ok := RestartFirefox();
        response := if ok then Done else Failed(RestartError);
      }
      return Answer(response);
    }
  }

  /** How `main` ends: the loop stopped because `get_message()` returned
      `None` (the input ended, or a message was JSON `null`), or an exception
      left the loop. */
  datatype End = Finished | Crashed

  /** One turn of the loop in `main` as a value, for an arbitrary machine
      behaviour; `HostStep(env)` is the host's own. */
  type Step = (HostState, Json) -> (Handled, HostState)

  function HostStep(env: Env): Step {
    (st: HostState, m: Json) => Handle(env, st, m)
  }

  /** A step that answers every JSON object, as `Handle` does. */
  ghost predicate AnswersObjects(step: Step) {
    forall st: HostState, m: Json {:trigger step(st, m)} :: m.JObj? ==> step(st, m).0.Answer?
  }

  /** The loop of `main` driven by `step`, on the input bytes `data` from
      position `pos` on, when `out` has been written so far and the machine
      is in state `st`: the bytes written in the end, the final state and
      how it ends. */
  function Run(c: Codec, step: Step, data: seq<byte>, pos: nat, st: HostState, out: seq<byte>)
    : (r: (seq<byte>, HostState, End))
    requires pos <= |data|
    ensures |out| <= |r.0| && r.0[..|out|] == out
    decreases |data| - pos
  {
    match ReadFrame(c, data, pos)
    case (EndOfInput, _) => (out, st, Finished)
    case (Message(m), next) =>
      var (h, st') := step(st, m);
      if h.Stop? then (out, st', Finished)
      else if h.Uncaught? || !Fits(c, ResponseJson(h.response)) then (out, st', Crashed)
      else Run(c, step, data, next, st', out + Frame(c, ResponseJson(h.response)))
    case _ => (out, st, Crashed)
  }

  /** What `main` does on the machine `env`. */
  function Session(c: Codec, env: Env, data: seq<byte>, pos: nat, st: HostState, out: seq<byte>)
    : (r: (seq<byte>, HostState, End))
    requires pos <= |data|
    ensures |out| <= |r.0| && r.0[..|out|] == out
  {
    Run(c, HostStep(env), data, pos, st, out)
  }

  /** `main()` */
  method Serve(c: Codec, stdin: InStream, stdout: OutStream, host: Host) returns (end: End)
    requires stdin.Valid()
    modifies stdin, stdout, host
    ensures stdin.Valid()
    ensures (stdout.written, host.State(), end)
         == Session(c, host.env, stdin.data, old(stdin.pos), old(host.State()), old(stdout.written))
  {
    while true
      invariant stdin.Valid()
      invariant Session(c, host.env, stdin.data, stdin.pos, host.State(), stdout.written)
             == Session(c, host.env, stdin.data, old(stdin.pos), old(host.State()), old(stdout.written))
      decreases |stdin.data| - stdin.pos
    {
      var message := GetMessage(c, stdin);
      if message == EndOfInput {
        return Finished;
      }
      if !message.Message? {
        return Crashed;
      }
      var outcome := host.HandleMessage(message.msg);
      if outcome.Stop? {
        return Finished;
      }
      if outcome.Uncaught? {
        return Crashed;
      }
      var sent := SendMessage(c, stdout, ResponseJson(outcome.response));
      if !sent {
        return Crashed;
      }
    }
  }

  /** The responses `step` gives to a run of object messages, and the state
      after them. */
  function Replies(step: Step, st: HostState, msgs: seq<Json>): (r: (seq<Response>, HostState))
    requires AnswersObjects(step)
    requires forall i :: 0 <= i < |msgs| ==> msgs[i].JObj?
    ensures |r.0| == |msgs|
    decreases |msgs|
  {
    if msgs == [] then ([], st)
    else
      var (h, st') := step(st, msgs[0]);
      var (rest, final) := Replies(step, st', msgs[1..]);
      ([h.response] + rest, final)
  }

  function ResponseJsons(rs: seq<Response>): (js: seq<Json>)
    ensures |js| == |rs|
    ensures forall i :: 0 <= i < |rs| ==> js[i] == ResponseJson(rs[i])
  {
    if rs == [] then [] else [ResponseJson(rs[0])] + ResponseJsons(rs[1..])
  }

  /** A step whose every answer to an object is short enough to be framed. */
  ghost predicate AnswersFit(c: Codec, step: Step) {
    forall st: HostState, m: Json {:trigger step(st, m)} ::
      m.JObj? && step(st, m).0.Answer? ==> Fits(c, ResponseJson(step(st, m).0.response))
  }

  /** What the loop writes for a run of object messages: the frame of each
      response, in order. */
  function ResponseFrames(c: Codec, step: Step, st: HostState, msgs: seq<Json>): seq<byte>
    requires AnswersObjects(step) && AnswersFit(c, step)
    requires forall i :: 0 <= i < |msgs| ==> msgs[i].JObj?
    decreases |msgs|
  {
    if msgs == [] then []
    else
      var (h, st') := step(st, msgs[0]);
      Frame(c, ResponseJson(h.response)) + ResponseFrames(c, step, st', msgs[1..])
  }

  /** Those are the frames of the responses `Replies` lists. */
  lemma {:induction false} ResponseFramesAreFrames(c: Codec, step: Step, st: HostState, msgs: seq<Json>)
    requires AnswersObjects(step) && AnswersFit(c, step)
    requires forall i :: 0 <= i < |msgs| ==> msgs[i].JObj?
    ensures forall i :: 0 <= i < |msgs| ==> Fits(c, ResponseJsons(Replies(step, st, msgs).0)[i])
    ensures ResponseFrames(c, step, st, msgs) == Frames(c, ResponseJsons(Replies(step, st, msgs).0))
    decreases |msgs|
  {
    if msgs != [] {
      var (h, st') := step(st, msgs[0]);
      ResponseFramesAreFrames(c, step, st', msgs[1..]);
      var rs := Replies(step, st, msgs).0;
      var tailRs := Replies(step, st', msgs[1..]).0;
      assert rs == [h.response] + tailRs;
      assert rs[1..] == tailRs;
      var js := ResponseJsons(rs);
      assert js[1..] == ResponseJsons(tailRs);
      assert js == [js[0]] + js[1..];
    }
  }

  /** The response dict reads back as the response: `success` holds its
      flag, and `error` is present exactly when there is an error text. */
  lemma ResponseJsonReads(r: Response)
    ensures ResponseJson(r).JObj?
    ensures Lookup(ResponseJson(r).fields, "success") == Some(JBool(r.success))
    ensures Lookup(ResponseJson(r).fields, "error") == if r.error.Some? then Some(JStr(r.error.value)) else None
  {
    var f := ResponseJson(r).fields;
    if r.error.Some? {
      assert f[1..][1..] == [];
    } else {
      assert f[1..] == [];
    }
  }

  /** A response is a JSON object with distinct keys. */
  lemma ResponseWellFormed(r: Response)
    ensures WellFormed(ResponseJson(r))
  {
    var f := ResponseJson(r).fields;
    if r.error.Some? {
      assert f[1..][1..] == [];
      assert Keys(f[1..]) == ["error"];
    } else {
      assert f[1..] == [];
    }
  }

  /** With every one of its responses short enough, the host's answers fit. */
  lemma HostAnswersFit(c: Codec, env: Env)
    requires HostResponsesFit(c, env)
    ensures AnswersFit(c, HostStep(env))
  {
    forall st: HostState, m: Json | m.JObj? && HostStep(env)(st, m).0.Answer?
      ensures Fits(c, ResponseJson(HostStep(env)(st, m).0.response))
    {
      assert HostStep(env)(st, m) == Handle(env, st, m);
      HandleResponses(env, st, m);
    }
  }

  /** One turn of the loop on a framed object message at position `pos`. */
  lemma RunStep(c: Codec, step: Step, data: seq<byte>, pos: nat, m: Json, st: HostState, out: seq<byte>)
    requires Faithful(c) && AnswersObjects(step) && AnswersFit(c, step)
    requires Fits(c, m) && WellFormed(m) && m.JObj?
    requires pos + |Frame(c, m)| <= |data| && data[pos..pos + |Frame(c, m)|] == Frame(c, m)
    ensures Run(c, step, data, pos, st, out)
         == Run(c, step, data, pos + |Frame(c, m)|,
                step(st, m).1, out + Frame(c, ResponseJson(step(st, m).0.response)))
  {
    FrameAt(c, m, data, pos);
    assert step(st, m).0.Answer?;
    assert Fits(c, ResponseJson(step(st, m).0.response));
  }

  /** The responses to a non-empty run: the first one, then the rest. */
  lemma ResponseFramesCons(c: Codec, step: Step, st: HostState, msgs: seq<Json>)
    requires AnswersObjects(step) && AnswersFit(c, step) && |msgs| > 0
    requires forall i :: 0 <= i < |msgs| ==> msgs[i].JObj?
    ensures ResponseFrames(c, step, st, msgs)
         == Frame(c, ResponseJson(step(st, msgs[0]).0.response))
            + ResponseFrames(c, step, step(st, msgs[0]).1, msgs[1..])
    ensures Replies(step, st, msgs).1 == Replies(step, step(st, msgs[0]).1, msgs[1..]).1
  {
  }

  /** The input from `pos` on consists of the frames of `msgs`, back to back. */
  predicate FramedAt(c: Codec, data: seq<byte>, pos: nat, msgs: seq<Json>)
    decreases |msgs|
  {
    if msgs == [] then pos == |data|
    else
      && Fits(c, msgs[0])
      && pos + |Frame(c, msgs[0])| <= |data|
      && data[pos..pos + |Frame(c, msgs[0])|] == Frame(c, msgs[0])
      && FramedAt(c, data, pos + |Frame(c, msgs[0])|, msgs[1..])
  }

  /** `Frames` lays out exactly such an input. */
  lemma {:induction false} FramesFramed(c: Codec, data: seq<byte>, pos: nat, msgs: seq<Json>)
    requires forall i :: 0 <= i < |msgs| ==> Fits(c, msgs[i])
    requires pos <= |data| && data[pos..] == Frames(c, msgs)
    ensures FramedAt(c, data, pos, msgs)
    decreases |msgs|
  {
    if msgs != [] {
      var f := Frame(c, msgs[0]);
      assert data[pos..] == f + Frames(c, msgs[1..]);
      assert data[pos..pos + |f|] == data[pos..][..|f|];
      assert data[pos + |f|..] == data[pos..][|f|..];
      FramesFramed(c, data, pos + |f|, msgs[1..]);
    }
  }

  /** At the end of the input the loop stops. */
  lemma RunAtEnd(c: Codec, step: Step, data: seq<byte>, pos: nat, st: HostState, out: seq<byte>)
    requires pos == |data|
    ensures Run(c, step, data, pos, st, out) == (out, st, Finished)
  {
    assert ReadFrame(c, data, pos).0 == EndOfInput;
  }

  /** When the input from `pos` on is a run of framed object messages, the
      loop answers each one in order and stops cleanly at the end of the
      input. */
  lemma {:induction false} RunOverFrames(c: Codec, step: Step, data: seq<byte>, pos: nat, msgs: seq<Json>,
                                         st: HostState, out: seq<byte>)
    requires Faithful(c) && AnswersObjects(step) && AnswersFit(c, step)
    requires forall i :: 0 <= i < |msgs| ==> msgs[i].JObj? && WellFormed(msgs[i])
    requires pos <= |data| && FramedAt(c, data, pos, msgs)
    ensures Run(c, step, data, pos, st, out)
         == (out + ResponseFrames(c, step, st, msgs), Replies(step, st, msgs).1, Finished)
    decreases |msgs|, 1
  {
    if msgs == [] {
      RunAtEnd(c, step, data, pos, st, out);
      assert out + ResponseFrames(c, step, st, msgs) == out;
    } else {
      RunOverFramesCons(c, step, data, pos, msgs, st, out);
    }
  }

  /** The same for a non-empty run: the first turn, then the rest. */
  lemma {:induction false} RunOverFramesCons(c: Codec, step: Step, data: seq<byte>, pos: nat, msgs: seq<Json>,
                                             st: HostState, out: seq<byte>)
    requires Faithful(c) && AnswersObjects(step) && AnswersFit(c, step) && msgs != []
    requires forall i :: 0 <= i < |msgs| ==> msgs[i].JObj? && WellFormed(msgs[i])
    requires pos <= |data| && FramedAt(c, data, pos, msgs)
    ensures Run(c, step, data, pos, st, out)
         == (out + ResponseFrames(c, step, st, msgs), Replies(step, st, msgs).1, Finished)
    decreases |msgs|, 0
  {
    var f := Frame(c, msgs[0]);
    var st' := step(st, msgs[0]).1;
    var g := Frame(c, ResponseJson(step(st, msgs[0]).0.response));
    RunStep(c, step, data, pos, msgs[0], st, out);
    RunOverFrames(c, step, data, pos + |f|, msgs[1..], st', out + g);
    ResponseFramesCons(c, step, st, msgs);
    Chain(Run(c, step, data, pos, st, out), Run(c, step, data, pos + |f|, st', out + g),
          out, g, ResponseFrames(c, step, st', msgs[1..]),
          ResponseFrames(c, step, st, msgs),
          Replies(step, st', msgs[1..]).1, Replies(step, st, msgs).1);
  }

  /** The algebra that joins one turn of the loop to the rest. */
  lemma Chain(r0: (seq<byte>, HostState, End), r1: (seq<byte>, HostState, End),
              out: seq<byte>, g: seq<byte>, tail: seq<byte>, all: seq<byte>, s1: HostState, s: HostState)
    requires r0 == r1 && r1 == (out + g + tail, s1, Finished)
    requires all == g + tail && s == s1
    ensures r0 == (out + all, s, Finished)
  {
    assert out + g + tail == out + (g + tail);
  }

  /** Exactly one response per message: on an input that is a run of framed
      JSON objects, `main` answers each one, in order, and stops cleanly when
      the input ends; what it writes reads back as those responses. */
  lemma OneResponsePerMessage(c: Codec, env: Env, msgs: seq<Json>, st: HostState)
    requires Faithful(c) && HostResponsesFit(c, env)
    requires forall i :: 0 <= i < |msgs| ==> msgs[i].JObj? && WellFormed(msgs[i]) && Fits(c, msgs[i])
    ensures AnswersObjects(HostStep(env))
    ensures var (out, st', end) := Session(c, env, Frames(c, msgs), 0, st, []);
      && end == Finished
      && st' == Replies(HostStep(env), st, msgs).1
      && ReadAll(c, out, 0) == Some(ResponseJsons(Replies(HostStep(env), st, msgs).0))
      && |ResponseJsons(Replies(HostStep(env), st, msgs).0)| == |msgs|
  {
    HostStepAnswers(env);
    HostAnswersFit(c, env);
    var data := Frames(c, msgs);
    assert data[0..] == data;
    FramesFramed(c, data, 0, msgs);
    RunOverFrames(c, HostStep(env), data, 0, msgs, st, []);
    ResponseFramesAreFrames(c, HostStep(env), st, msgs);
    var replies := Replies(HostStep(env), st, msgs).0;
    var rs := ResponseJsons(replies);
    forall i | 0 <= i < |rs| ensures WellFormed(rs[i]) {
      ResponseWellFormed(replies[i]);
    }
    ReadAllFrames(c, [], rs);
    assert [] + Frames(c, rs) == Frames(c, rs);
  }

  /** The host answers every JSON object it reads. */
  lemma HostStepAnswers(env: Env)
    ensures AnswersObjects(HostStep(env))
  {
    forall st: HostState, m: Json | m.JObj?
      ensures HostStep(env)(st, m).0.Answer?
    {
      assert HostStep(env)(st, m) == Handle(env, st, m);
    }
  }

  /** A message that is JSON `null` reads as `None`: `main` stops as at the
      end of the input, without answering it. */
  lemma NullMessageStops(c: Codec, env: Env, before: seq<byte>, after: seq<byte>,
                         st: HostState, out: seq<byte>)
    requires Faithful(c) && Fits(c, JNull)
    ensures Session(c, env, before + Frame(c, JNull) + after, |before|, st, out) == (out, st, Finished)
  {
    FrameRoundTrip(c, JNull, before, after);
  }

  /** Any other message that is not a JSON object makes `message.get` raise
      outside the `try` block: `main` ends without answering it. */
  lemma NonObjectMessageStops(c: Codec, env: Env, m: Json, before: seq<byte>, after: seq<byte>,
                              st: HostState, out: seq<byte>)
    requires Faithful(c) && Fits(c, m) && WellFormed(m) && !m.JObj? && m != JNull
    ensures Session(c, env, before + Frame(c, m) + after, |before|, st, out) == (out, st, Crashed)
  {
    FrameRoundTrip(c, m, before, after);
  }
}
