/**
 * The vote engine behind the inline buttons: find the poll a button press
 * belongs to, read the pressed index, and toggle, switch or add the
 * presser's vote.
 */
module Vote {
  import opened Wrappers
  import opened Strconv
  import opened Poll

  /** The position of the first voter with user ID `id`, or -1. */
  function IndexOfVoter(users: seq<WhoUser>, id: int): (r: int)
    ensures -1 <= r < |users|
    ensures r == -1 <==> forall k :: 0 <= k < |users| ==> users[k].user.id != id
    ensures r != -1 ==> users[r].user.id == id && forall k :: 0 <= k < r ==> users[k].user.id != id
  {
    if users == [] then -1
    else if users[0].user.id == id then 0
    else
      var k := IndexOfVoter(users[1..], id);
      if k == -1 then -1 else k + 1
  }

  /** The linear scan of `whoCBQuery` for the presser among the voters. */
  method FindVoter(users: seq<WhoUser>, id: int) returns (theIdx: int)
    ensures theIdx == IndexOfVoter(users, id)
  {
    theIdx := -1;
    var i := 0;
    while i < |users|
      invariant 0 <= i <= |users|
      invariant forall k :: 0 <= k < i ==> users[k].user.id != id
    {
      if users[i].user.id == id {
        theIdx := i;
        return;
      }
      i := i + 1;
    }
  }

  /**
   * The voters after `from` pressed the button of choice `choice`.
   * Pressing one's current choice removes one's vote: the last voter takes
   * the freed slot and the sequence shrinks by one. Pressing another choice
   * changes only that voter's choice. A user who has not voted is appended.
   */
  function Voted(users: seq<WhoUser>, from: User, choice: int): (r: seq<WhoUser>)
    ensures var k := IndexOfVoter(users, from.id);
            && (k == -1 ==> r == users + [WhoUser(from, choice)])
            && (k != -1 && users[k].choice == choice ==>
                  && |r| == |users| - 1
                  && (k < |r| ==> r[k] == users[|users| - 1])
                  && forall j :: 0 <= j < |r| && j != k ==> r[j] == users[j])
            && (k != -1 && users[k].choice != choice ==>
                  && |r| == |users|
                  && r[k] == WhoUser(users[k].user, choice)
                  && forall j :: 0 <= j < |r| && j != k ==> r[j] == users[j])
  {
    var k := IndexOfVoter(users, from.id);
    if k == -1 then users + [WhoUser(from, choice)]
    else if users[k].choice == choice then users[k := users[|users| - 1]][..|users| - 1]
    else users[k := WhoUser(users[k].user, choice)]
  }

  /** The slice update of `whoCBQuery`: swap-and-truncate, update in place, or append. */
  method ApplyVote(users: seq<WhoUser>, theIdx: int, from: User, choiceIdx: int) returns (result: seq<WhoUser>)
    requires theIdx == IndexOfVoter(users, from.id)
    ensures result == Voted(users, from, choiceIdx)
  {
    result := users;
    if theIdx != -1 {
      var userChoice := result[theIdx].choice;
      if userChoice == choiceIdx {
        result := result[theIdx := result[|result| - 1]];
        result := result[..|result| - 1];
      } else {
        result := result[theIdx := result[theIdx].(choice := choiceIdx)];
      }
    } else {
      result := result + [WhoUser(from, choiceIdx)];
    }
  }

  /** A vote keeps at most one voter per user. */
  lemma VotedKeepsUnique(users: seq<WhoUser>, from: User, choice: int)
    requires UniqueIds(users)
    ensures UniqueIds(Voted(users, from, choice))
  {
    var k := IndexOfVoter(users, from.id);
    var r := Voted(users, from, choice);
    if k != -1 && users[k].choice == choice {
      var last := |users| - 1;
      forall i, j | 0 <= i < |r| && 0 <= j < |r| && r[i].user.id == r[j].user.id
        ensures i == j
      {
        var i' := if i == k then last else i;
        var j' := if j == k then last else j;
        assert r[i] == users[i'] && r[j] == users[j'];
      }
    }
  }

  /** A vote keeps every voter below `n` when the pressed index is below `n`. */
  lemma VotedBelow(users: seq<WhoUser>, from: User, choice: int, n: int)
    requires forall k :: 0 <= k < |users| ==> users[k].choice < n
    requires choice < n
    ensures forall k :: 0 <= k < |Voted(users, from, choice)| ==> Voted(users, from, choice)[k].choice < n
  {
    var k := IndexOfVoter(users, from.id);
    var r := Voted(users, from, choice);
    if k != -1 && users[k].choice == choice {
      forall j | 0 <= j < |r| ensures r[j].choice < n {
        assert r[j] == users[if j == k then |users| - 1 else j];
      }
    }
  }

  /** The presser is a voter afterwards exactly when they did not press their current choice. */
  lemma VotedMembership(users: seq<WhoUser>, from: User, choice: int)
    requires UniqueIds(users)
    ensures var k := IndexOfVoter(users, from.id);
            var r := Voted(users, from, choice);
            && (IndexOfVoter(r, from.id) == -1 <==> (k != -1 && users[k].choice == choice))
            && (IndexOfVoter(r, from.id) != -1 ==> r[IndexOfVoter(r, from.id)].choice == choice)
  {
    var k := IndexOfVoter(users, from.id);
    var r := Voted(users, from, choice);
    if k == -1 {
      assert r[|users|].user.id == from.id;
    } else if users[k].choice == choice {
      forall j | 0 <= j < |r| ensures r[j].user.id != from.id {
        assert r[j] == users[if j == k then |users| - 1 else j];
      }
    } else {
      assert r[k].user.id == from.id;
    }
  }

  /**
   * Pressing the same button twice, as a user who had not voted, leaves the
   * voters exactly as they were: an append followed by a swap with itself
   * and a truncation.
   */
  lemma DoublePressRestores(users: seq<WhoUser>, from: User, choice: int)
    requires IndexOfVoter(users, from.id) == -1
    ensures Voted(Voted(users, from, choice), from, choice) == users
  {
    var once := Voted(users, from, choice);
    assert once[|users|].user.id == from.id;
    assert IndexOfVoter(once, from.id) == |users|;
  }

  /** The outcome of pressing a button. */
  datatype CallbackError =
    | CannotParseMessage      // neither a chat message nor an inline message
    | CannotFindQuestion      // no poll stored under the message's key
    | InvalidPayload          // `strconv.Atoi` rejected the payload
    | CannotFindChoice        // the pressed index is at or above the number of choices

  /** A button press: the message it came from, the presser and the payload. */
  datatype CallbackQuery = CallbackQuery(message: Option<int>, inlineMessageId: string, from: User, data: string)

  /** The poll to store back, and under which key. */
  datatype Stored = Stored(key: string, poll: WhoMessage)

  /**
   * The key of the poll a press belongs to: the chat message ID in decimal
   * when the press carries a non-zero one, else the inline message ID.
   */
  function MessageKey(q: CallbackQuery): (r: Option<string>)
    ensures q.message.Some? && q.message.value != 0 ==> r == Some(Itoa(q.message.value))
    ensures (q.message.None? || q.message.value == 0) && q.inlineMessageId != "" ==> r == Some(q.inlineMessageId)
    ensures r.None? <==> (q.message.None? || q.message.value == 0) && q.inlineMessageId == ""
  {
    if q.message.Some? && q.message.value != 0 then Some(Itoa(q.message.value))
    else if q.inlineMessageId != "" then Some(q.inlineMessageId)
    else None
  }

  /**
   * What a button press does to the poll store `whoMap`. Each error arises
   * exactly in its case; a successful press stores the poll back under its
   * own key with question and choices untouched and the voters updated by
   * `Voted`. Only the upper bound of the index is checked: a negative index
   * is accepted.
   */
  function Callback(whoMap: map<string, WhoMessage>, q: CallbackQuery): (r: Result<Stored, CallbackError>)
    ensures var key := MessageKey(q);
            && (r == Err(CannotParseMessage) <==> key.None?)
            && (r == Err(CannotFindQuestion) <==> key.Some? && key.value !in whoMap)
            && (r == Err(InvalidPayload) <==> key.Some? && key.value in whoMap && Atoi(q.data).None?)
            && (r == Err(CannotFindChoice) <==>
                  key.Some? && key.value in whoMap && Atoi(q.data).Some? && |whoMap[key.value].choices| <= Atoi(q.data).value)
            && (r.Ok? <==>
                  key.Some? && key.value in whoMap && Atoi(q.data).Some? && Atoi(q.data).value < |whoMap[key.value].choices|)
            && (r.Ok? ==>
                  && r.value.key == key.value
                  && r.value.poll.question == whoMap[key.value].question
                  && r.value.poll.choices == whoMap[key.value].choices
                  && r.value.poll.users == Voted(whoMap[key.value].users, q.from, Atoi(q.data).value))
  {
    match MessageKey(q)
    case None => Err(CannotParseMessage)
    case Some(key) =>
      if key !in whoMap then Err(CannotFindQuestion)
      else
        var p := whoMap[key];
        match Atoi(q.data)
        case None => Err(InvalidPayload)
        case Some(choiceIdx) =>
          if |p.choices| <= choiceIdx then Err(CannotFindChoice)
          else Ok(Stored(key, p.(users := Voted(p.users, q.from, choiceIdx))))
  }

  /** A successful press keeps a stored poll well formed. */
  lemma CallbackKeepsWellFormed(whoMap: map<string, WhoMessage>, q: CallbackQuery)
    requires Callback(whoMap, q).Ok?
    requires WellFormed(whoMap[Callback(whoMap, q).value.key])
    ensures WellFormed(Callback(whoMap, q).value.poll)
  {
    var s := Callback(whoMap, q).value;
    var p := whoMap[s.key];
    var c := Atoi(q.data).value;
    VotedKeepsUnique(p.users, q.from, c);
    VotedBelow(p.users, q.from, c, |p.choices|);
  }

  /**
   * Pressing the same button twice, as a user who had not voted on that
   * poll, gives back the store one started from.
   */
  lemma DoubleCallbackRestoresStore(whoMap: map<string, WhoMessage>, q: CallbackQuery)
    requires Callback(whoMap, q).Ok?
    requires IndexOfVoter(whoMap[Callback(whoMap, q).value.key].users, q.from.id) == -1
    ensures var s := Callback(whoMap, q).value;
            var whoMap' := whoMap[s.key := s.poll];
            && Callback(whoMap', q).Ok?
            && whoMap'[s.key := Callback(whoMap', q).value.poll] == whoMap
  {
    var key := MessageKey(q).value;
    var p := whoMap[key];
    var c := Atoi(q.data).value;
    var once := p.(users := Voted(p.users, q.from, c));
    assert Callback(whoMap, q) == Ok(Stored(key, once));
    DoublePressRestores(p.users, q.from, c);
    var whoMap' := whoMap[key := once];
    assert once.(users := Voted(once.users, q.from, c)) == p;
    assert Callback(whoMap', q) == Ok(Stored(key, p));
    assert whoMap'[key := p] == whoMap;
  }

  /**
   * The payload "-1" passes the index check, which bounds the index from
   * above only: the poll to write back holds the presser with choice -1, an
   * index that names no choice.
   */
  lemma NegativePayloadStored(whoMap: map<string, WhoMessage>, q: CallbackQuery)
    requires MessageKey(q).Some? && MessageKey(q).value in whoMap
    requires q.data == "-1"
    requires IndexOfVoter(whoMap[MessageKey(q).value].users, q.from.id) == -1
    ensures Callback(whoMap, q).Ok?
    ensures var users := Callback(whoMap, q).value.poll.users;
            users[|users| - 1] == WhoUser(q.from, -1)
  {
    AtoiMinusOne();
  }
}
