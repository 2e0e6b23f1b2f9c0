/**
 * The bot's poll store and its update handlers: the `/who` command, the
 * inline-query draft, the chosen-result migration of a draft into the live
 * store, the button press, and the dispatch of one update among them.
 */
module Bot {
  import opened Wrappers
  import opened Strconv
  import opened Poll
  import opened Parser
  import opened Vote
  import opened Render
  import opened Keyboard

  /**
   * A chat message, as far as the bot reads it: its text, the command it
   * starts with (`None` when it is not a command) and the command's
   * arguments.
   */
  datatype Message = Message(text: string, command: Option<string>, commandArguments: string)

  /** An inline query: the text typed after the bot's name. */
  datatype InlineQuery = InlineQuery(query: string)

  /** The user picked the article `resultId`; it was posted as inline message `inlineMessageId`. */
  datatype ChosenInlineResult = ChosenInlineResult(resultId: string, inlineMessageId: string)

  /** One update; any of its parts may be absent. */
  datatype Update = Update(
    message: Option<Message>,
    callbackQuery: Option<CallbackQuery>,
    inlineQuery: Option<InlineQuery>,
    chosenInlineResult: Option<ChosenInlineResult>)

  /** The two maps: live polls by message key, and drafts by article ID. */
  datatype Store = Store(whoMap: map<string, WhoMessage>, articleIdMap: map<string, WhoMessage>)

  /** A poll as posted: its text and its button grid. */
  datatype Outgoing = Outgoing(text: string, keyboard: seq<seq<Button>>)

  /** The answer to an inline query: an article with its ID, its title and the poll it posts. */
  datatype Article = Article(id: string, title: string, posted: Outgoing)

  predicate AllWellFormed(m: map<string, WhoMessage>) {
    forall k :: k in m ==> WellFormed(m[k])
  }

  /** Every poll in both maps is well formed. */
  predicate StoreValid(s: Store) {
    AllWellFormed(s.whoMap) && AllWellFormed(s.articleIdMap)
  }

  /** The poll a command text creates, or `None` when the text is rejected. */
  function Created(query: string): (r: Option<WhoMessage>)
    ensures r.Some? <==> Parse(query).Ok?
    ensures r.Some? ==> r.value.users == [] && r.value.question == Parse(query).value.question
    ensures r.Some? ==>
              r.value.choices == (if Parse(query).value.options == [] then DefaultChoices else Parse(query).value.options)
  {
    match Parse(query)
    case Ok(c) => Some(NewWhoMessage(c.question, c.options))
    case Err(_) => None
  }

  /**
   * `/who args` answered by the message with ID `sentMessageId`: a rejected
   * command changes nothing; an accepted one stores its poll under the
   * decimal message ID and touches no other poll and no draft.
   */
  function AfterWho(s: Store, args: string, sentMessageId: int): (r: Store)
    ensures r.articleIdMap == s.articleIdMap
    ensures Created(args).None? ==> r == s
    ensures Created(args).Some? ==>
              && r.whoMap.Keys == s.whoMap.Keys + {Itoa(sentMessageId)}
              && r.whoMap[Itoa(sentMessageId)] == Created(args).value
              && forall k :: k in s.whoMap && k != Itoa(sentMessageId) ==> r.whoMap[k] == s.whoMap[k]
  {
    match Created(args)
    case None => s
    case Some(p) => s.(whoMap := s.whoMap[Itoa(sentMessageId) := p])
  }

  /**
   * An inline query answered by a draft under `articleId`: a rejected text
   * changes nothing; an accepted one keeps its poll as a draft under
   * `articleId` and touches no other draft and no live poll.
   */
  function AfterInline(s: Store, query: string, articleId: string): (r: Store)
    ensures r.whoMap == s.whoMap
    ensures Created(query).None? ==> r == s
    ensures Created(query).Some? ==>
              && r.articleIdMap.Keys == s.articleIdMap.Keys + {articleId}
              && r.articleIdMap[articleId] == Created(query).value
              && forall k :: k in s.articleIdMap && k != articleId ==> r.articleIdMap[k] == s.articleIdMap[k]
  {
    match Created(query)
    case None => s
    case Some(p) => s.(articleIdMap := s.articleIdMap[articleId := p])
  }

  /** A chosen result: its draft, if any, moves to the live map under the inline message ID. */
  function AfterChosen(s: Store, c: ChosenInlineResult): (r: Store)
    ensures c.resultId !in s.articleIdMap ==> r == s
    ensures c.resultId in s.articleIdMap ==>
              && r.articleIdMap == s.articleIdMap - {c.resultId}
              && r.whoMap == s.whoMap[c.inlineMessageId := s.articleIdMap[c.resultId]]
  {
    if c.resultId !in s.articleIdMap then s
    else Store(s.whoMap[c.inlineMessageId := s.articleIdMap[c.resultId]], s.articleIdMap - {c.resultId})
  }

  /**
   * A button press: the voted poll is written back on success only. A press
   * never adds or removes a poll, never touches a draft, changes at most the
   * poll it belongs to, and keeps that poll's question and choices.
   */
  function AfterCallback(s: Store, q: CallbackQuery): (r: Store)
    ensures r.articleIdMap == s.articleIdMap
    ensures r.whoMap.Keys == s.whoMap.Keys
    ensures Callback(s.whoMap, q).Err? ==> r == s
    ensures forall k :: k in s.whoMap && Some(k) != MessageKey(q) ==> r.whoMap[k] == s.whoMap[k]
    ensures forall k :: k in s.whoMap ==>
              r.whoMap[k].question == s.whoMap[k].question && r.whoMap[k].choices == s.whoMap[k].choices
  {
    match Callback(s.whoMap, q)
    case Ok(st) => s.(whoMap := s.whoMap[st.key := st.poll])
    case Err(_) => s
  }

  /**
   * One update: a button press, else a `/who` message, else an inline query;
   * then, in every case, a chosen result. No update removes a live poll;
   * drafts appear only under the article ID of the update and disappear
   * only when chosen.
   */
  function Step(s: Store, u: Update, sentMessageId: int, articleId: string): (r: Store)
    ensures s.whoMap.Keys <= r.whoMap.Keys
    ensures r.articleIdMap.Keys <= s.articleIdMap.Keys + {articleId}
    ensures forall k :: k in s.articleIdMap && k !in r.articleIdMap ==>
              u.chosenInlineResult.Some? && u.chosenInlineResult.value.resultId == k
  {
    if u.message.None? && u.callbackQuery.None? && u.inlineQuery.None? && u.chosenInlineResult.None? then s
    else
      var s1 :=
        if u.callbackQuery.Some? then AfterCallback(s, u.callbackQuery.value)
        else if u.message.Some? then
          var m := u.message.value;
          if m.text != "" && m.command == Some("who") then AfterWho(s, m.commandArguments, sentMessageId) else s
        else if u.inlineQuery.Some? then AfterInline(s, u.inlineQuery.value.query, articleId)
        else s;
      if u.chosenInlineResult.Some? then AfterChosen(s1, u.chosenInlineResult.value) else s1
  }

  lemma CreatedWellFormed(query: string)
    requires Created(query).Some?
    ensures WellFormed(Created(query).value)
  {
    CreatedPollChoices(query);
  }

  lemma InsertValid(m: map<string, WhoMessage>, k: string, p: WhoMessage)
    requires AllWellFormed(m) && WellFormed(p)
    ensures AllWellFormed(m[k := p])
  {
  }

  lemma AfterWhoValid(s: Store, args: string, sentMessageId: int)
    requires StoreValid(s)
    ensures StoreValid(AfterWho(s, args, sentMessageId))
  {
    var c := Created(args);
    if c.Some? {
      CreatedWellFormed(args);
      InsertValid(s.whoMap, Itoa(sentMessageId), c.value);
      assert AfterWho(s, args, sentMessageId) == s.(whoMap := s.whoMap[Itoa(sentMessageId) := c.value]);
    }
  }

  lemma AfterInlineValid(s: Store, query: string, articleId: string)
    requires StoreValid(s)
    ensures StoreValid(AfterInline(s, query, articleId))
  {
    var c := Created(query);
    if c.Some? {
      CreatedWellFormed(query);
      InsertValid(s.articleIdMap, articleId, c.value);
      assert AfterInline(s, query, articleId) == s.(articleIdMap := s.articleIdMap[articleId := c.value]);
    }
  }

  lemma AfterChosenValid(s: Store, c: ChosenInlineResult)
    requires StoreValid(s)
    ensures StoreValid(AfterChosen(s, c))
  {
  }

  lemma AfterCallbackValid(s: Store, q: CallbackQuery)
    requires StoreValid(s)
    ensures StoreValid(AfterCallback(s, q))
  {
    if Callback(s.whoMap, q).Ok? {
      CallbackKeepsWellFormed(s.whoMap, q);
    }
  }

  /** Every update keeps every stored poll well formed. */
  lemma StepKeepsValid(s: Store, u: Update, sentMessageId: int, articleId: string)
    requires StoreValid(s)
    ensures StoreValid(Step(s, u, sentMessageId, articleId))
  {
    var s1 := s;
    if u.callbackQuery.Some? {
      AfterCallbackValid(s, u.callbackQuery.value);
      s1 := AfterCallback(s, u.callbackQuery.value);
    } else if u.message.Some? {
      var m := u.message.value;
      if m.text != "" && m.command == Some("who") {
        AfterWhoValid(s, m.commandArguments, sentMessageId);
        s1 := AfterWho(s, m.commandArguments, sentMessageId);
      }
    } else if u.inlineQuery.Some? {
      AfterInlineValid(s, u.inlineQuery.value.query, articleId);
      s1 := AfterInline(s, u.inlineQuery.value.query, articleId);
    }
    if u.chosenInlineResult.Some? {
      AfterChosenValid(s1, u.chosenInlineResult.value);
    }
  }

  /**
   * An inline query followed by the choice of its article publishes the
   * created poll under the inline message ID and leaves the drafts as they
   * were before the query.
   */
  lemma DraftPublished(s: Store, query: string, articleId: string, inlineMessageId: string)
    requires Created(query).Some?
    requires articleId !in s.articleIdMap
    ensures var r := AfterChosen(AfterInline(s, query, articleId), ChosenInlineResult(articleId, inlineMessageId));
            && r.whoMap == s.whoMap[inlineMessageId := Created(query).value]
            && r.articleIdMap == s.articleIdMap
  {
    var p := Created(query).value;
    assert AfterInline(s, query, articleId) == s.(articleIdMap := s.articleIdMap[articleId := p]);
    DraftMoves(s, p, articleId, inlineMessageId);
  }

  lemma DraftMoves(s: Store, p: WhoMessage, articleId: string, inlineMessageId: string)
    requires articleId !in s.articleIdMap
    ensures var r := AfterChosen(s.(articleIdMap := s.articleIdMap[articleId := p]), ChosenInlineResult(articleId, inlineMessageId));
            && r.whoMap == s.whoMap[inlineMessageId := p]
            && r.articleIdMap == s.articleIdMap
  {
    assert s.articleIdMap[articleId := p] - {articleId} == s.articleIdMap;
  }

  /**
   * Pressing the button of choice `k` on a stored well-formed poll casts a
   * vote for choice `k`: the payload the keyboard put on the button reads
   * back as `k`, which passes the index check.
   */
  lemma ButtonPressVotes(s: Store, q: CallbackQuery, k: nat)
    requires StoreValid(s)
    requires MessageKey(q).Some? && MessageKey(q).value in s.whoMap
    requires k < |s.whoMap[MessageKey(q).value].choices|
    requires q.data == ButtonFor(s.whoMap[MessageKey(q).value].choices, k).callbackData
    ensures var key := MessageKey(q).value;
            var p := s.whoMap[key];
            AfterCallback(s, q).whoMap == s.whoMap[key := p.(users := Voted(p.users, q.from, k))]
  {
    var key := MessageKey(q).value;
    PayloadSelectsChoice(s.whoMap[key].choices, k);
  }

  /** The live store, with the two maps the handlers update in place. */
  class WhoBot {
    var whoMap: map<string, WhoMessage>
    var articleIdMap: map<string, WhoMessage>

    ghost function State(): Store
      reads this
    {
      Store(whoMap, articleIdMap)
    }

    ghost predicate Valid()
      reads this
    {
      StoreValid(State())
    }

    constructor ()
      ensures Valid() && whoMap == map[] && articleIdMap == map[]
    {
      whoMap := map[];
      articleIdMap := map[];
    }

    /**
     * `/who args`: a rejected command changes nothing; otherwise the new
     * poll is posted and stored under the decimal ID of the sent message.
     */
    method RunWhoCommand(args: string, sentMessageId: int) returns (sent: Option<Outgoing>)
      requires Valid()
      modifies this
      ensures Valid()
      ensures State() == AfterWho(old(State()), args, sentMessageId)
      ensures sent.Some? <==> Created(args).Some?
      ensures sent.Some? ==>
                && sent.value.text == WhoList(Created(args).value)
                && TwoPerRow(|Created(args).value.choices|, sent.value.keyboard)
                && Flatten(sent.value.keyboard) == AllButtons(Created(args).value.choices)
    {
      var question, options, err := CommandQuerySplit(args);
      if err.Some? {
        return None;
      }
      var whoMsg := NewWhoMessage(question, options);
      CreatedWellFormed(args);
      var text := GenerateWhoList(whoMsg);
      var keyboard := GenerateInlineKeyboard(whoMsg);
      whoMap := whoMap[Itoa(sentMessageId) := whoMsg];
      return Some(Outgoing(text, keyboard));
    }

    /**
     * An inline query: a rejected text changes nothing; otherwise the new
     * poll is offered as an article and kept as a draft under `articleId`.
     */
    method RunInlineQueryWhoCommand(iq: InlineQuery, articleId: string) returns (offered: Option<Article>)
      requires Valid()
      modifies this
      ensures Valid()
      ensures State() == AfterInline(old(State()), iq.query, articleId)
      ensures offered.Some? <==> Created(iq.query).Some?
      ensures offered.Some? ==>
                && offered.value.id == articleId
                && offered.value.title == Created(iq.query).value.question
                && offered.value.posted.text == WhoList(Created(iq.query).value)
                && TwoPerRow(|Created(iq.query).value.choices|, offered.value.posted.keyboard)
                && Flatten(offered.value.posted.keyboard) == AllButtons(Created(iq.query).value.choices)
    {
      var question, options, err := CommandQuerySplit(iq.query);
      if err.Some? {
        return None;
      }
      var whoMsg := NewWhoMessage(question, options);
      CreatedWellFormed(iq.query);
      articleIdMap := articleIdMap[articleId := whoMsg];
      var text := GenerateWhoList(whoMsg);
      var keyboard := GenerateInlineKeyboard(whoMsg);
      return Some(Article(articleId, question, Outgoing(text, keyboard)));
    }

    /** A chosen result moves its draft, if there is one, into the live map. */
    method ChooseInlineResult(c: ChosenInlineResult)
      requires Valid()
      modifies this
      ensures Valid()
      ensures State() == AfterChosen(old(State()), c)
    {
      if c.resultId !in articleIdMap {
        return;
      }
      var whoMsg := articleIdMap[c.resultId];
      articleIdMap := articleIdMap - {c.resultId};
      whoMap := whoMap[c.inlineMessageId := whoMsg];
    }

    /**
     * A button press: find the poll, the presser and the pressed index,
     * apply the vote and write the poll back; any failure leaves the store
     * as it was and is reported.
     */
    method WhoCBQuery(q: CallbackQuery) returns (err: Option<CallbackError>)
      requires Valid()
      modifies this
      ensures Valid()
      ensures State() == AfterCallback(old(State()), q)
      ensures err.None? <==> Callback(old(whoMap), q).Ok?
      ensures err.Some? ==> Callback(old(whoMap), q) == Err(err.value)
    {
      var msgID: string;
      if q.message.Some? && q.message.value != 0 {
        msgID := Itoa(q.message.value);
      } else if q.inlineMessageId != "" {
        msgID := q.inlineMessageId;
      } else {
        return Some(CannotParseMessage);
      }
      if msgID !in whoMap {
        return Some(CannotFindQuestion);
      }
      var whoMsg := whoMap[msgID];
      var theIdx := FindVoter(whoMsg.users, q.from.id);
      var parsed := Atoi(q.data);
      if parsed.None? {
        return Some(InvalidPayload);
      }
      var choiceIdx := parsed.value;
      if |whoMsg.choices| <= choiceIdx {
        return Some(CannotFindChoice);
      }
      var users := ApplyVote(whoMsg.users, theIdx, q.from, choiceIdx);
      whoMsg := whoMsg.(users := users);
      CallbackKeepsWellFormed(whoMap, q);
      whoMap := whoMap[msgID := whoMsg];
      return None;
    }

    /** The dispatch of one update among the handlers. */
    method HandleUpdate(u: Update, sentMessageId: int, articleId: string)
      requires Valid()
      modifies this
      ensures Valid()
      ensures State() == Step(old(State()), u, sentMessageId, articleId)
    {
      if u.message.None? && u.callbackQuery.None? && u.inlineQuery.None? && u.chosenInlineResult.None? {
        return;
      }
      if u.callbackQuery.Some? {
        var _ := WhoCBQuery(u.callbackQuery.value);
      } else if u.message.Some? {
        var m := u.message.value;
        if m.text != "" && m.command == Some("who") {
          var _ := RunWhoCommand(m.commandArguments, sentMessageId);
        }
      } else if u.inlineQuery.Some? {
        var _ := RunInlineQueryWhoCommand(u.inlineQuery.value, articleId);
      }
      if u.chosenInlineResult.Some? {
        ChooseInlineResult(u.chosenInlineResult.value);
      }
    }
  }
}
