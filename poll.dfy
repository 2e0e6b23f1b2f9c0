/**
 * The poll data model: the platform's user descriptor, a voter (a user and
 * the index of the choice they picked) and a poll ("who message").
 */
module Poll {

  /** The fields of the platform's user descriptor that the bot reads. */
  datatype User = User(id: int, firstName: string, lastName: string, userName: string)

  /** A voter: the user who pressed a button and the index of their choice. */
  datatype WhoUser = WhoUser(user: User, choice: int)

  /** A poll: its voters in storage order, the question and the choice labels. */
  datatype WhoMessage = WhoMessage(users: seq<WhoUser>, question: string, choices: seq<string>)

  /** The choices a poll gets when its command names none. */
  const DefaultChoices: seq<string> := ["Yes", "No"]

  /** The most options a command may name. */
  const MaxOptions: nat := 10

  /** A new poll with no voters; an empty choice list falls back to `DefaultChoices`. */
  function NewWhoMessage(question: string, choices: seq<string>): (r: WhoMessage)
    ensures r.question == question && r.users == []
    ensures choices != [] ==> r.choices == choices
    ensures choices == [] ==> r.choices == DefaultChoices
    ensures |r.choices| >= 1
  {
    WhoMessage([], question, if |choices| == 0 then DefaultChoices else choices)
  }

  /** No two voters of the sequence share a user ID. */
  predicate UniqueIds(users: seq<WhoUser>) {
    forall i, j :: 0 <= i < |users| && 0 <= j < |users| && users[i].user.id == users[j].user.id ==> i == j
  }

  /**
   * What every stored poll satisfies: between 1 and `MaxOptions` choices, one
   * voter per user, and no voter at or above the number of choices (the only
   * bound the vote handler checks).
   */
  predicate WellFormed(p: WhoMessage) {
    && 1 <= |p.choices| <= MaxOptions
    && UniqueIds(p.users)
    && forall k :: 0 <= k < |p.users| ==> p.users[k].choice < |p.choices|
  }
}
