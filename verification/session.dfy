/** The home page as a state machine (Home.jsx): the state its hooks hold, the start-up
    effect `initData`, the conversational turn `handleSearchQuery` and the compare handlers.
    Every awaited network call is an `Oracle` parameter; every transition also reports the
    requests it issued, in order, and the alert it raised, if any. */
module Session {
  import opened Outcomes
  import opened Listing
  import opened CriteriaStore
  import Compare
  import Strings

  datatype Sender = FromUser | FromBot

  /** A transcript entry; only bot entries that answered a query carry properties. */
  datatype Message = Message(from: Sender, text: Value, properties: seq<Property>)

  function UserEntry(text: string): Message
  {
    Message(FromUser, Str(text), [])
  }

  function BotEntry(text: Value, properties: seq<Property>): Message
  {
    Message(FromBot, text, properties)
  }

  /** The opening bot message of a fresh page. */
  const Greeting: Message := BotEntry(
    Str("Hi!\nWelcome to Agent Mira. I\U{2019}m here to help you find your perfect property. "
        + "Tell me what you\U{2019}re looking for!"), [])

  /** The signed-in user as the application holds it. `preferences` and `messages` are
      optional: a user who never searched has neither. */
  datatype User = User(
    name: string,
    email: string,
    preferences: Option<Criteria>,
    messages: Option<seq<Message>>)

  /** The `"user"` entry of local storage: absent (or empty), text that `JSON.parse`
      rejects, or a parsed value, which may be `null`. */
  datatype Cached = NoEntry | Unparsable | Entry(user: Option<User>)

  /** The calls the page makes, with the payload each carries. */
  datatype Request =
    | FetchCatalogue
    | Interpret(message: string, currentDetails: Criteria)
    | FilterBy(mergedResult: Criteria)
    | SavePreferences(preferences: Criteria)
    | SaveMessages(messages: seq<Message>)

  datatype Alert = AskMoreDescriptive | SomethingWentWrong

  /** The state hooks of the page, together with the `user` prop that `setUser` updates. */
  datatype Session = Session(
    user: Option<User>,
    properties: seq<Property>,
    filtered: seq<Property>,
    search: string,
    messages: seq<Message>,
    isTyping: bool,
    compareList: seq<Property>,
    showCompare: bool,
    sortOption: string,
    result: Criteria)

  /** One transition: the new state, the requests issued in order, the alert raised. */
  datatype Step = Step(session: Session, requests: seq<Request>, alert: Option<Alert>)

  /** The state on first render. */
  function Mount(user: Option<User>): Session
  {
    Session(user, [], [], "", [Greeting], false, [], false, "", Default())
  }

  // ---------------------------------------------------------------- start-up

  /** The user whose data the start-up effect applies: the prop when it is set, otherwise
      the parsed local-storage entry. */
  function ActiveUser(userProp: Option<User>, cached: Cached): (r: Option<User>)
    ensures userProp.Some? ==> r == userProp
    ensures userProp.None? && cached.Entry? ==> r == cached.user
    ensures userProp.None? && !cached.Entry? ==> r == None
  {
    if userProp.Some? then userProp
    else if cached.Entry? then cached.user
    else None
  }

  /** Parsing the cached entry throws only when it is consulted and unparsable. */
  predicate CacheReadable(userProp: Option<User>, cached: Cached)
  {
    !(userProp.None? && cached.Unparsable?)
  }

  /** The stored preferences the effect applies, when the data can be read at all. */
  function ActivePreferences(userProp: Option<User>, cached: Cached): Option<Criteria>
  {
    var active := ActiveUser(userProp, cached);
    if CacheReadable(userProp, cached) && active.Some? then active.value.preferences else None
  }

  /** The stored transcript the effect restores, when the data can be read at all. */
  function ActiveMessages(userProp: Option<User>, cached: Cached): Option<seq<Message>>
  {
    var active := ActiveUser(userProp, cached);
    if CacheReadable(userProp, cached) && active.Some? then active.value.messages else None
  }

  /** `initData`: fetch the catalogue and show all of it; adopt the cached user when there
      is no prop; merge stored preferences into the criteria and ask for the matching
      subset; restore the stored transcript. A failed catalogue fetch, or an unparsable
      cache entry, ends the effect early; a failed filter call keeps the full catalogue. */
  function Start(s: Session, cached: Cached, catalogue: Oracle<seq<Property>>,
                 filterReply: Oracle<seq<Property>>): (r: Step)
    ensures r.alert == None
    ensures |r.requests| > 0 && r.requests[0] == FetchCatalogue
    ensures catalogue.Fail? ==> r.session == s && r.requests == [FetchCatalogue]
    ensures catalogue.Ok? ==> r.session.properties == catalogue.value
    ensures catalogue.Ok? ==>
      r.session.filtered ==
        (if ActivePreferences(s.user, cached).Some? && filterReply.Ok? then filterReply.value
         else catalogue.value)
    ensures catalogue.Ok? && ActivePreferences(s.user, cached).Some? ==>
      && r.session.result == Merge(s.result, ActivePreferences(s.user, cached).value)
      && r.requests == [FetchCatalogue, FilterBy(ActivePreferences(s.user, cached).value)]
    ensures ActivePreferences(s.user, cached).None? ==>
      r.session.result == s.result && r.requests == [FetchCatalogue]
    ensures catalogue.Ok? && ActiveMessages(s.user, cached).Some? ==>
      r.session.messages == ActiveMessages(s.user, cached).value
    ensures catalogue.Fail? || ActiveMessages(s.user, cached).None? ==>
      r.session.messages == s.messages
    ensures r.session.user ==
      (if catalogue.Ok? && s.user.None? && cached.Entry? then cached.user else s.user)
  {
    match catalogue
    case Fail => Step(s, [FetchCatalogue], None)
    case Ok(all) =>
      var loaded := s.(properties := all, filtered := all);
      if !CacheReadable(s.user, cached) then Step(loaded, [FetchCatalogue], None)
      else
        var adopted := if s.user.None? && cached.Entry? then loaded.(user := cached.user) else loaded;
        var prefs := ActivePreferences(s.user, cached);
        var msgs := ActiveMessages(s.user, cached);
        var applied :=
          if prefs.None? then adopted
          else
            var merged := adopted.(result := Merge(adopted.result, prefs.value));
            if filterReply.Ok? then merged.(filtered := filterReply.value) else merged;
        var requests := if prefs.None? then [FetchCatalogue] else [FetchCatalogue, FilterBy(prefs.value)];
        var restored := if msgs.Some? then applied.(messages := msgs.value) else applied;
        Step(restored, requests, None)
  }

  /** Start-up touches only the catalogue, the shown list, the user, the criteria and the
      transcript. */
  lemma StartLeavesOtherState(s: Session, cached: Cached, catalogue: Oracle<seq<Property>>,
                              filterReply: Oracle<seq<Property>>)
    ensures var r := Start(s, cached, catalogue, filterReply).session;
      && r.search == s.search
      && r.isTyping == s.isTyping
      && r.compareList == s.compareList
      && r.showCompare == s.showCompare
      && r.sortOption == s.sortOption
  {
  }

  // ---------------------------------------------------------------- the turn

  /** `longer` starts with all of `prefix`. */
  predicate Extends(longer: seq<Message>, prefix: seq<Message>)
  {
    |prefix| <= |longer| && longer[..|prefix|] == prefix
  }

  /** The second half of a successful turn for a signed-in user: the preferences patch, then,
      only if it succeeded, the transcript patch, then the user update. Any failure is
      logged and leaves the state as it is. */
  function Persist(s: Session, prefs: Criteria, transcript: seq<Message>,
                   savePrefs: Oracle<()>, saveMessages: Oracle<()>): (r: (Session, seq<Request>))
    requires s.user.Some?
    ensures |r.1| > 0 && r.1[0] == SavePreferences(prefs)
    ensures savePrefs.Fail? ==> r == (s, [SavePreferences(prefs)])
    ensures savePrefs.Ok? ==> r.1 == [SavePreferences(prefs), SaveMessages(transcript)]
    ensures savePrefs.Ok? && saveMessages.Ok? ==>
      r.0 == s.(user := Some(s.user.value.(preferences := Some(prefs), messages := Some(transcript))))
    ensures savePrefs.Fail? || saveMessages.Fail? ==> r.0 == s
  {
    if savePrefs.Fail? then (s, [SavePreferences(prefs)])
    else if saveMessages.Fail? then (s, [SavePreferences(prefs), SaveMessages(transcript)])
    else
      var u := s.user.value.(preferences := Some(prefs), messages := Some(transcript));
      (s.(user := Some(u)), [SavePreferences(prefs), SaveMessages(transcript)])
  }

  /** The `try` block of `handleSearchQuery`, entered with the user entry already appended:
      ask the interpreter (sending the pre-turn criteria), replace the criteria by its reply,
      ask for the subset matching the reply without `message`, show it, append the bot
      entry, and for a signed-in user persist. Any failure raises the retry alert; the
      `finally` clears the typing flag. The transcript it was given is never altered. */
  function Answer(asked: Session, ask: Request, interpreter: Oracle<Criteria>,
                  filterReply: Oracle<seq<Property>>,
                  savePrefs: Oracle<()>, saveMessages: Oracle<()>): (r: Step)
    ensures |r.requests| > 0 && r.requests[0] == ask
    ensures r.session.search == asked.search && !r.session.isTyping
    ensures Extends(r.session.messages, asked.messages)
  {
    match interpreter
    case Fail => Step(asked.(isTyping := false), [ask], Some(SomethingWentWrong))
    case Ok(parsed) =>
      var stripped := WithoutMessage(parsed);
      var interpreted := asked.(result := parsed);
      match filterReply
      case Fail =>
        Step(interpreted.(isTyping := false), [ask, FilterBy(stripped)], Some(SomethingWentWrong))
      case Ok(data) =>
        var transcript := asked.messages + [BotEntry(BotText(parsed), data)];
        assert transcript[..|asked.messages|] == asked.messages;
        var answered := interpreted.(filtered := data, messages := transcript);
        if answered.user.None? then
          Step(answered.(isTyping := false), [ask, FilterBy(stripped)], None)
        else
          var (saved, writes) := Persist(answered, stripped, transcript, savePrefs, saveMessages);
          Step(saved.(isTyping := false), [ask, FilterBy(stripped)] + writes, None)
  }

  /** `handleSearchQuery`: reject a blank query; otherwise append the untrimmed user entry,
      clear the input, set the typing flag and run the `try` block. */
  function Turn(s: Session, interpreter: Oracle<Criteria>, filterReply: Oracle<seq<Property>>,
                savePrefs: Oracle<()>, saveMessages: Oracle<()>): (r: Step)
    // a blank query
    ensures Strings.Blank(s.search) ==> r == Step(s, [], Some(AskMoreDescriptive))
    // every other query
    ensures !Strings.Blank(s.search) ==>
      && |r.requests| > 0 && r.requests[0] == Interpret(s.search, s.result)
      && r.session.search == ""
      && !r.session.isTyping
      && Extends(r.session.messages, s.messages + [UserEntry(s.search)])
  {
    if Strings.TrimsToEmpty(s.search) then Step(s, [], Some(AskMoreDescriptive))
    else
      var asked := s.(messages := s.messages + [UserEntry(s.search)], search := "", isTyping := true);
      Answer(asked, Interpret(s.search, s.result), interpreter, filterReply, savePrefs, saveMessages)
  }

  /** A non-blank query runs the `try` block on the state with the user entry appended. */
  lemma TurnAnswers(s: Session, interpreter: Oracle<Criteria>, filterReply: Oracle<seq<Property>>,
                    savePrefs: Oracle<()>, saveMessages: Oracle<()>)
    requires !Strings.Blank(s.search)
    ensures Turn(s, interpreter, filterReply, savePrefs, saveMessages)
      == Answer(s.(messages := s.messages + [UserEntry(s.search)], search := "", isTyping := true),
                Interpret(s.search, s.result), interpreter, filterReply, savePrefs, saveMessages)
  {
  }

  /** Both calls of the `try` block succeed: the bot entry is appended, the shown list and
      the criteria are replaced, and the persistence writes (if any) follow the two calls. */
  lemma AnswerSucceeds(asked: Session, ask: Request, reply: Criteria, data: seq<Property>,
                       savePrefs: Oracle<()>, saveMessages: Oracle<()>)
    ensures var r := Answer(asked, ask, Ok(reply), Ok(data), savePrefs, saveMessages);
      && r.session.messages == asked.messages + [BotEntry(BotText(reply), data)]
      && r.session.filtered == data
      && r.session.result == reply
      && r.session.search == asked.search
      && r.alert == None
      && |r.requests| >= 2
      && r.requests[..2] == [ask, FilterBy(WithoutMessage(reply))]
      && (asked.user.None? ==> |r.requests| == 2 && r.session.user == None)
  {
  }

  /** The `try` block touches neither the catalogue, the compare list, the compare panel nor
      the sort option. */
  lemma AnswerLeavesViewState(asked: Session, ask: Request, interpreter: Oracle<Criteria>,
                              filterReply: Oracle<seq<Property>>,
                              savePrefs: Oracle<()>, saveMessages: Oracle<()>)
    ensures var r := Answer(asked, ask, interpreter, filterReply, savePrefs, saveMessages).session;
      && r.properties == asked.properties
      && r.compareList == asked.compareList
      && r.showCompare == asked.showCompare
      && r.sortOption == asked.sortOption
  {
  }

  /** A turn whose interpreter call fails keeps the user entry, leaves criteria and the
      shown catalogue as they were, and ends with the typing flag cleared. */
  lemma TurnInterpreterFails(s: Session, filterReply: Oracle<seq<Property>>,
                             savePrefs: Oracle<()>, saveMessages: Oracle<()>)
    requires !Strings.Blank(s.search)
    ensures var r := Turn(s, Fail, filterReply, savePrefs, saveMessages);
      && r.session == s.(messages := s.messages + [UserEntry(s.search)], search := "", isTyping := false)
      && r.requests == [Interpret(s.search, s.result)]
      && r.alert == Some(SomethingWentWrong)
  {
    TurnAnswers(s, Fail, filterReply, savePrefs, saveMessages);
  }

  /** A turn whose filter call fails keeps the user entry, has already replaced the criteria
      by the interpreter's reply (they are not restored), and keeps the shown catalogue. */
  lemma TurnFilterFails(s: Session, reply: Criteria, savePrefs: Oracle<()>, saveMessages: Oracle<()>)
    requires !Strings.Blank(s.search)
    ensures var r := Turn(s, Ok(reply), Fail, savePrefs, saveMessages);
      && r.session.messages == s.messages + [UserEntry(s.search)]
      && r.session.result == reply
      && r.session.filtered == s.filtered
      && !r.session.isTyping
      && r.requests == [Interpret(s.search, s.result), FilterBy(WithoutMessage(reply))]
      && r.alert == Some(SomethingWentWrong)
  {
    TurnAnswers(s, Ok(reply), Fail, savePrefs, saveMessages);
  }

  /** A successful turn appends exactly the user entry (untrimmed text) and the bot entry,
      whose properties are the new shown catalogue; the criteria become the whole reply. */
  lemma TurnSucceeds(s: Session, reply: Criteria, data: seq<Property>,
                     savePrefs: Oracle<()>, saveMessages: Oracle<()>)
    requires !Strings.Blank(s.search)
    ensures var r := Turn(s, Ok(reply), Ok(data), savePrefs, saveMessages);
      && r.session.messages == s.messages + [UserEntry(s.search), BotEntry(BotText(reply), data)]
      && r.session.messages[|r.session.messages| - 1].properties == r.session.filtered
      && r.session.filtered == data
      && r.session.result == reply
      && r.session.search == ""
      && !r.session.isTyping
      && r.alert == None
      && |r.requests| >= 2
      && r.requests[..2] == [Interpret(s.search, s.result), FilterBy(WithoutMessage(reply))]
      && (s.user.None? ==> |r.requests| == 2 && r.session.user == None)
  {
    TurnAnswers(s, Ok(reply), Ok(data), savePrefs, saveMessages);
    AnswerSucceeds(s.(messages := s.messages + [UserEntry(s.search)], search := "", isTyping := true),
                   Interpret(s.search, s.result), reply, data, savePrefs, saveMessages);
    var u, b := UserEntry(s.search), BotEntry(BotText(reply), data);
    assert (s.messages + [u]) + [b] == s.messages + [u, b];
  }

  /** For a signed-in user a successful turn saves the reply minus `message` first; the
      transcript is saved only if that succeeded, and the user is updated only if both did. */
  lemma TurnPersists(s: Session, reply: Criteria, data: seq<Property>,
                     savePrefs: Oracle<()>, saveMessages: Oracle<()>)
    requires !Strings.Blank(s.search) && s.user.Some?
    ensures var r := Turn(s, Ok(reply), Ok(data), savePrefs, saveMessages);
      && |r.requests| > 2
      && r.requests[2] == SavePreferences(WithoutMessage(reply))
      && (savePrefs.Fail? ==> |r.requests| == 3 && r.session.user == s.user)
      && (savePrefs.Ok? ==> r.requests[3..] == [SaveMessages(r.session.messages)])
      && (saveMessages.Fail? ==> r.session.user == s.user)
      && (savePrefs.Ok? && saveMessages.Ok? ==>
            r.session.user == Some(s.user.value.(preferences := Some(WithoutMessage(reply)),
                                                 messages := Some(r.session.messages))))
  {
    TurnAnswers(s, Ok(reply), Ok(data), savePrefs, saveMessages);
  }

  // ---------------------------------------------------------------- compare

  /** `handleAddToCompare`: add unless the id is listed, and open the compare panel. */
  function AddToCompare(s: Session, p: Property): (r: Session)
    ensures r.showCompare
    ensures Compare.HasId(s.compareList, p.id) ==> r.compareList == s.compareList
    ensures !Compare.HasId(s.compareList, p.id) ==> r.compareList == s.compareList + [p]
    ensures r.(compareList := s.compareList, showCompare := s.showCompare) == s
  {
    s.(compareList := Compare.Add(s.compareList, p), showCompare := true)
  }

  /** `handleRemoveFromCompare`: drop every entry with the id; the panel stays as it is. */
  function RemoveFromCompare(s: Session, id: string): (r: Session)
    ensures forall x :: x in r.compareList <==> x in s.compareList && x.id != id
    ensures !Compare.HasId(s.compareList, id) ==> r == s
    ensures r.(compareList := s.compareList) == s
  {
    s.(compareList := Compare.Remove(s.compareList, id))
  }

  // ---------------------------------------------------------------- lemmas

  /** On a fresh page, stored preferences overwrite exactly their own keys of the default
      criteria; the other criteria keep their defaults, and only a stored transcript
      replaces the greeting. */
  lemma StartOnMount(user: Option<User>, cached: Cached, all: seq<Property>,
                     filterReply: Oracle<seq<Property>>)
    ensures var r := Start(Mount(user), cached, Ok(all), filterReply).session;
      var prefs := ActivePreferences(user, cached);
      && (prefs.None? ==> r.result == Default() && r.filtered == all)
      && (prefs.Some? ==>
            && r.result.Keys == CriteriaKeys + prefs.value.Keys
            && (forall k :: k in prefs.value ==> r.result[k] == prefs.value[k])
            && (forall k :: k in CriteriaKeys && k !in prefs.value ==> r.result[k] == Default()[k]))
      && (ActiveMessages(user, cached).None? ==> r.messages == [Greeting])
  {
    var prefs := ActivePreferences(user, cached);
    if prefs.Some? {
      MergeOntoDefaults(prefs.value);
    }
  }

  /** The effect runs again whenever it has adopted the cached user (the prop changes).
      With the same call outcomes the second run changes nothing: the merge is idempotent
      and the cached user now arrives as the prop. */
  lemma StartAgainChangesNothing(s: Session, cached: Cached, catalogue: Oracle<seq<Property>>,
                                 filterReply: Oracle<seq<Property>>)
    ensures var once := Start(s, cached, catalogue, filterReply).session;
      Start(once, cached, catalogue, filterReply).session == once
  {
    var once := Start(s, cached, catalogue, filterReply).session;
    if catalogue.Ok? && ActivePreferences(s.user, cached).Some? {
      var p := ActivePreferences(s.user, cached).value;
      assert ActivePreferences(once.user, cached) == Some(p);
      MergeIdempotent(s.result, p);
    }
  }

  /** A completed, saved turn updates the user, which re-runs the start-up effect. That
      run leaves the criteria at the interpreter's reply and the transcript as the turn
      left it: the saved preferences are the reply minus `message`, already part of it.
      The shown list, though, is first reset to the whole catalogue and filtered again: if
      that second filter call fails, the list the turn showed is lost. */
  lemma RerunAfterSavedTurn(s: Session, reply: Criteria, data: seq<Property>, cached: Cached,
                            all: seq<Property>, filterAgain: Oracle<seq<Property>>)
    requires s.user.Some? && !Strings.Blank(s.search)
    ensures var turned := Turn(s, Ok(reply), Ok(data), Ok(()), Ok(())).session;
      var rerun := Start(turned, cached, Ok(all), filterAgain).session;
      && rerun.result == reply
      && rerun.messages == turned.messages
      && rerun.filtered == (if filterAgain.Ok? then filterAgain.value else all)
  {
    var turned := Turn(s, Ok(reply), Ok(data), Ok(()), Ok(())).session;
    assert ActivePreferences(turned.user, cached) == Some(WithoutMessage(reply));
    MergeSubRecordIsIdentity(reply, WithoutMessage(reply));
  }

  /** A turn touches neither the catalogue, the compare list, the compare panel nor the
      sort option. */
  lemma TurnLeavesViewState(s: Session, interpreter: Oracle<Criteria>,
                            filterReply: Oracle<seq<Property>>,
                            savePrefs: Oracle<()>, saveMessages: Oracle<()>)
    ensures var r := Turn(s, interpreter, filterReply, savePrefs, saveMessages).session;
      && r.properties == s.properties
      && r.compareList == s.compareList
      && r.showCompare == s.showCompare
      && r.sortOption == s.sortOption
  {
    if !Strings.Blank(s.search) {
      TurnAnswers(s, interpreter, filterReply, savePrefs, saveMessages);
      AnswerLeavesViewState(s.(messages := s.messages + [UserEntry(s.search)], search := "", isTyping := true),
                            Interpret(s.search, s.result), interpreter, filterReply, savePrefs, saveMessages);
    }
  }

  /** The transcript only grows: whatever the calls answer, a turn keeps the earlier
      entries in place, and a non-blank one puts its untrimmed user entry right after them. */
  lemma TurnKeepsTranscriptPrefix(s: Session, interpreter: Oracle<Criteria>,
                                  filterReply: Oracle<seq<Property>>,
                                  savePrefs: Oracle<()>, saveMessages: Oracle<()>)
    ensures var r := Turn(s, interpreter, filterReply, savePrefs, saveMessages).session;
      && |s.messages| <= |r.messages| && r.messages[..|s.messages|] == s.messages
      && (!Strings.Blank(s.search) ==>
            |r.messages| > |s.messages| && r.messages[|s.messages|] == UserEntry(s.search))
  {
    if Strings.Blank(s.search) {
    } else if interpreter.Fail? {
      TurnInterpreterFails(s, filterReply, savePrefs, saveMessages);
    } else if filterReply.Fail? {
      TurnFilterFails(s, interpreter.value, savePrefs, saveMessages);
    } else {
      TurnSucceeds(s, interpreter.value, filterReply.value, savePrefs, saveMessages);
      var m := s.messages + [UserEntry(s.search), BotEntry(BotText(interpreter.value), filterReply.value)];
      assert m[..|s.messages|] == s.messages;
    }
  }
}
