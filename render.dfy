/**
 * The message text of a poll: the question, then one block per choice with
 * a header `<b>label (count):</b>` and one bullet per voter of that choice.
 */
module Render {
  import opened Strconv
  import opened GoStrings
  import opened Poll
  import opened Vote

  const LinkStart: string := "<a href=\"http://telegram.me/"

  /** The start of every voter's line (a newline, a bullet sign and a space). */
  const BulletPrefix: string := "\n\U{E2}\U{20AC}\U{A2} "

  const UnknownChoice: string := "Unknown Choice"

  /** The name shown for a user: first and last name, else either, else the handle, else "Unknown". */
  function DisplayName(u: User): (r: string)
    ensures r != ""
    ensures u.firstName != "" && u.lastName != "" ==> r == u.firstName + " " + u.lastName
    ensures u.firstName != "" && u.lastName == "" ==> r == u.firstName
    ensures u.firstName == "" && u.lastName != "" ==> r == u.lastName
    ensures u.firstName == "" && u.lastName == "" && u.userName != "" ==> r == u.userName
    ensures u.firstName == "" && u.lastName == "" && u.userName == "" ==> r == "Unknown"
  {
    if u.firstName != "" then
      if u.lastName != "" then u.firstName + " " + u.lastName else u.firstName
    else if u.lastName != "" then u.lastName
    else if u.userName != "" then u.userName
    else "Unknown"
  }

  /** `formatUser`: the display name, linked to the profile exactly when the user has a handle. */
  function FormatUser(u: User): (r: string)
    ensures u.userName == "" ==> r == DisplayName(u)
    ensures u.userName != "" ==> r == LinkStart + u.userName + "\">" + DisplayName(u) + "</a>"
  {
    var name := DisplayName(u);
    if u.userName != "" then LinkStart + u.userName + "\">" + name + "</a>" else name
  }

  function BulletOf(u: User): string {
    BulletPrefix + FormatUser(u)
  }

  /** The voters whose choice is `c`, in storage order. */
  function Bucket(users: seq<WhoUser>, c: int): seq<WhoUser> {
    if users == [] then []
    else Bucket(users[..|users| - 1], c) + (if users[|users| - 1].choice == c then [users[|users| - 1]] else [])
  }

  /** One bullet line per voter, in order. */
  function BulletsOf(vs: seq<WhoUser>): (r: seq<string>)
    ensures |r| == |vs|
    ensures forall k :: 0 <= k < |vs| ==> r[k] == BulletOf(vs[k].user)
  {
    seq(|vs|, k requires 0 <= k < |vs| => BulletOf(vs[k].user))
  }

  lemma BulletsOfAppend(vs: seq<WhoUser>, v: WhoUser)
    ensures BulletsOf(vs + [v]) == BulletsOf(vs) + [BulletOf(v.user)]
  {
  }

  /** Taking one more voter into account extends its choice's bucket by that voter. */
  lemma BucketStep(users: seq<WhoUser>, j: nat, c: int)
    requires j < |users|
    ensures Bucket(users[..j + 1], c) == Bucket(users[..j], c) + (if users[j].choice == c then [users[j]] else [])
  {
    assert users[..j + 1][..j] == users[..j];
  }

  /** A bucket of `generateWhoList`: the choice's label and its bullet lines. */
  datatype Choice = Choice(choice: string, users: seq<string>)

  /**
   * The printed block of a bucket: on a new line, its label in bold with the
   * count, then its bullets run together.
   */
  function ChoiceBlock(c: Choice): (r: string)
    ensures "\n<b>" + c.choice + " (" <= r
    ensures |Join(c.users, "")| < |r| && r[|r| - |Join(c.users, "")|..] == Join(c.users, "")
  {
    "\n<b>" + c.choice + " (" + Itoa(|c.users|) + "):</b>" + Join(c.users, "")
  }

  /** The blocks of the buckets, one after the other. */
  function RenderChoices(cs: seq<Choice>): string {
    if cs == [] then "" else RenderChoices(cs[..|cs| - 1]) + ChoiceBlock(cs[|cs| - 1])
  }

  /** The bucket of every choice, in creation order: its label and one bullet per voter of it. */
  function Buckets(p: WhoMessage): (r: seq<Choice>)
    ensures |r| == |p.choices|
    ensures forall i :: 0 <= i < |r| ==> r[i] == Choice(p.choices[i], BulletsOf(Bucket(p.users, i)))
  {
    seq(|p.choices|, i requires 0 <= i < |p.choices| => Choice(p.choices[i], BulletsOf(Bucket(p.users, i))))
  }

  /** The whole message text of a poll: the question, a blank line, the blocks in choice order. */
  function WhoList(p: WhoMessage): (r: string)
    ensures p.question + "\n" <= r
  {
    p.question + "\n" + RenderChoices(Buckets(p))
  }

  /**
   * The label `generateWhoList` gives a voter's bucket when it was not
   * prepared in advance; a negative index would be out of range of the
   * choice list, so it has none.
   */
  function FallbackLabel(choices: seq<string>, c: int): string
    requires c >= 0
  {
    if c < |choices| then choices[c] else UnknownChoice
  }

  lemma ConcatAssoc(a: string, b: string, c: string)
    ensures (a + b) + c == a + (b + c)
  {
  }

  lemma RenderChoicesStep(cs: seq<Choice>, i: nat)
    requires i < |cs|
    ensures RenderChoices(cs[..i + 1]) == RenderChoices(cs[..i]) + ChoiceBlock(cs[i])
  {
    assert cs[..i + 1][..i] == cs[..i];
  }

  /**
   * The first half of `generateWhoList`: a bucket per choice index, then
   * each voter's bullet appended to the bucket of their choice. A bucket
   * met for the first time (an index with no choice) is labelled from the
   * choice list, or "Unknown Choice" past its end. The source looks up
   * `Choices[c]` for a voter whose index `c` has no bucket, which for a
   * negative `c` is out of range, so every choice must be non-negative.
   */
  method BucketVoters(whoMsg: WhoMessage) returns (choices: map<int, Choice>)
    requires forall k :: 0 <= k < |whoMsg.users| ==> whoMsg.users[k].choice >= 0
    ensures forall i :: 0 <= i < |whoMsg.choices| ==>
              i in choices && choices[i] == Choice(whoMsg.choices[i], BulletsOf(Bucket(whoMsg.users, i)))
  {
    var n := |whoMsg.choices|;
    var users := whoMsg.users;
    choices := map[];
    var idx := 0;
    while idx < n
      invariant 0 <= idx <= n
      invariant forall i :: 0 <= i < idx ==> i in choices && choices[i] == Choice(whoMsg.choices[i], [])
    {
      choices := choices[idx := Choice(whoMsg.choices[idx], [])];
      idx := idx + 1;
    }
    var j := 0;
    while j < |users|
      invariant 0 <= j <= |users|
      invariant forall i :: 0 <= i < n ==> i in choices && choices[i] == Choice(whoMsg.choices[i], BulletsOf(Bucket(users[..j], i)))
    {
      var user := users[j];
      var newChoice: Choice;
      if user.choice in choices {
        var choice := choices[user.choice];
        newChoice := Choice(choice.choice, choice.users + [BulletOf(user.user)]);
      } else {
        newChoice := Choice(FallbackLabel(whoMsg.choices, user.choice), [BulletOf(user.user)]);
      }
      choices := choices[user.choice := newChoice];
      forall i | 0 <= i < n
        ensures BulletsOf(Bucket(users[..j + 1], i))
                == BulletsOf(Bucket(users[..j], i)) + (if user.choice == i then [BulletOf(user.user)] else [])
      {
        BucketStep(users, j, i);
        if user.choice == i {
          BulletsOfAppend(Bucket(users[..j], i), user);
        }
      }
      j := j + 1;
    }
    assert users[..|users|] == users;
  }

  /**
   * `generateWhoList`: the question and a blank line, then the prepared
   * buckets 0 .. n-1 in order, each with its count and its bullets.
   * Every choice must be non-negative, as `BucketVoters` demands.
   */
  method GenerateWhoList(whoMsg: WhoMessage) returns (retStr: string)
    requires forall k :: 0 <= k < |whoMsg.users| ==> whoMsg.users[k].choice >= 0
    ensures retStr == WhoList(whoMsg)
  {
    var n := |whoMsg.choices|;
    var choices := BucketVoters(whoMsg);
    retStr := whoMsg.question + "\n";
    ghost var head := retStr;
    ghost var cs := Buckets(whoMsg);
    var i := 0;
    while i < n
      invariant 0 <= i <= n
      invariant retStr == head + RenderChoices(cs[..i])
    {
      var choice := choices[i];
      var block := "\n<b>" + choice.choice + " (" + Itoa(|choice.users|) + "):</b>" + Join(choice.users, "");
      assert choice == cs[i] && block == ChoiceBlock(cs[i]);
      RenderChoicesStep(cs, i);
      ConcatAssoc(head, RenderChoices(cs[..i]), block);
      retStr := retStr + block;
      i := i + 1;
    }
    assert cs[..n] == cs;
  }

  /** A voter is in the bucket of `c` exactly when it is a voter whose choice is `c`. */
  lemma {:induction false} BucketMember(users: seq<WhoUser>, c: int, v: WhoUser)
    ensures v in Bucket(users, c) <==> v in users && v.choice == c
  {
    if users != [] {
      var init := users[..|users| - 1];
      BucketMember(init, c, v);
      assert users == init + [users[|users| - 1]];
    }
  }

  /** Bucketing keeps storage order: the bucket of `a + b` is that of `a`, then that of `b`. */
  lemma {:induction false} BucketConcat(a: seq<WhoUser>, b: seq<WhoUser>, c: int)
    ensures Bucket(a + b, c) == Bucket(a, c) + Bucket(b, c)
  {
    if b != [] {
      var init, last := b[..|b| - 1], b[|b| - 1];
      BucketConcat(a, init, c);
      assert (a + b)[..|a + b| - 1] == a + init;
      assert (a + b)[|a + b| - 1] == last;
      var t := if last.choice == c then [last] else [];
      assert Bucket(a + b, c) == (Bucket(a, c) + Bucket(init, c)) + t;
      assert Bucket(b, c) == Bucket(init, c) + t;
    } else {
      assert a + b == a;
    }
  }

  /** The voters whose choice names one of `n` choices, in storage order. */
  function InRange(users: seq<WhoUser>, n: int): seq<WhoUser> {
    if users == [] then []
    else InRange(users[..|users| - 1], n) + (if 0 <= users[|users| - 1].choice < n then [users[|users| - 1]] else [])
  }

  lemma {:induction false} BucketOfInRange(users: seq<WhoUser>, n: int, c: int)
    requires 0 <= c < n
    ensures Bucket(InRange(users, n), c) == Bucket(users, c)
  {
    if users != [] {
      var init := users[..|users| - 1];
      var last := users[|users| - 1];
      BucketOfInRange(init, n, c);
      var tail := if 0 <= last.choice < n then [last] else [];
      BucketConcat(InRange(init, n), tail, c);
    }
  }

  /**
   * Voters whose index names no choice contribute nothing to the text: the
   * "Unknown Choice" bucket is never printed.
   */
  lemma OutOfRangeIgnored(p: WhoMessage)
    ensures WhoList(p) == WhoList(p.(users := InRange(p.users, |p.choices|)))
  {
    var q := p.(users := InRange(p.users, |p.choices|));
    forall i | 0 <= i < |p.choices| ensures Bucket(p.users, i) == Bucket(q.users, i) {
      BucketOfInRange(p.users, |p.choices|, i);
    }
    assert Buckets(p) == Buckets(q);
  }

  /** The total of the counts printed in the headers of the first `k` blocks. */
  function Tally(users: seq<WhoUser>, k: nat): nat {
    if k == 0 then 0 else Tally(users, k - 1) + |Bucket(users, k - 1)|
  }

  lemma {:induction false} TallyEmpty(k: nat)
    ensures Tally([], k) == 0
  {
    if k > 0 {
      TallyEmpty(k - 1);
    }
  }

  lemma {:induction false} TallyStep(users: seq<WhoUser>, v: WhoUser, k: nat)
    ensures Tally(users + [v], k) == Tally(users, k) + (if 0 <= v.choice < k then 1 else 0)
  {
    if k > 0 {
      TallyStep(users, v, k - 1);
      assert (users + [v])[..|users|] == users;
    }
  }

  /**
   * The counts in the headers add up to the number of voters whose index
   * names a choice; when every voter's does, to the number of voters.
   */
  lemma {:induction false} TallyCountsVoters(users: seq<WhoUser>, n: nat)
    ensures Tally(users, n) == |InRange(users, n)|
    ensures (forall k :: 0 <= k < |users| ==> 0 <= users[k].choice < n) ==> Tally(users, n) == |users|
  {
    if users != [] {
      var init := users[..|users| - 1];
      TallyCountsVoters(init, n);
      var last := users[|users| - 1];
      TallyStep(init, last, n);
      assert users == init + [last];
      assert |InRange(users, n)| == |InRange(init, n)| + (if 0 <= last.choice < n then 1 else 0);
    } else {
      TallyEmpty(n);
    }
  }

  /** With one voter per user, no user appears in the blocks of two different choices. */
  lemma BucketsDisjoint(users: seq<WhoUser>, i: int, j: int, v: WhoUser, w: WhoUser)
    requires UniqueIds(users)
    requires v in Bucket(users, i) && w in Bucket(users, j) && v.user.id == w.user.id
    ensures i == j && v == w
  {
    BucketMember(users, i, v);
    BucketMember(users, j, w);
    var a :| 0 <= a < |users| && users[a] == v;
    var b :| 0 <= b < |users| && users[b] == w;
  }

  predicate HasVoter(vs: seq<WhoUser>, id: int) {
    exists k :: 0 <= k < |vs| && vs[k].user.id == id
  }

  /**
   * After a press, the presser's bullet is in the block of the pressed
   * choice and in no other, unless the press withdrew their vote, in which
   * case it is in none.
   */
  lemma VoteMovesBullet(users: seq<WhoUser>, from: User, choice: int, i: int)
    requires UniqueIds(users)
    ensures var k := IndexOfVoter(users, from.id);
            var withdrawn := k != -1 && users[k].choice == choice;
            HasVoter(Bucket(Voted(users, from, choice), i), from.id) <==> (i == choice && !withdrawn)
  {
    var r := Voted(users, from, choice);
    VotedMembership(users, from, choice);
    VotedKeepsUnique(users, from, choice);
    var idx := IndexOfVoter(r, from.id);
    var b := Bucket(r, i);
    if HasVoter(b, from.id) {
      var a :| 0 <= a < |b| && b[a].user.id == from.id;
      BucketMember(r, i, b[a]);
      var t :| 0 <= t < |r| && r[t] == b[a];
      assert idx != -1 && t == idx;
    }
    if idx != -1 && i == choice {
      BucketMember(r, i, r[idx]);
      var a :| 0 <= a < |b| && b[a] == r[idx];
    }
  }

  /** The block of a bucket without voters is its header with count 0. */
  lemma EmptyChoiceBlock(choice: string)
    ensures ChoiceBlock(Choice(choice, [])) == "\n<b>" + choice + " (0):</b>"
  {
    assert Itoa(0) == "0";
    assert Join([], "") == "";
  }

  lemma RenderTwo(a: Choice, b: Choice)
    ensures RenderChoices([a, b]) == ChoiceBlock(a) + ChoiceBlock(b)
  {
    assert [a, b][..1] == [a];
    assert [a][..0] == [];
    assert RenderChoices([a]) == "" + ChoiceBlock(a);
    assert "" + ChoiceBlock(a) == ChoiceBlock(a);
  }

  lemma YesNoBlocks()
    ensures ChoiceBlock(Choice("Yes", [])) == "\n<b>Yes (0):</b>"
    ensures ChoiceBlock(Choice("No", [])) == "\n<b>No (0):</b>"
  {
    EmptyChoiceBlock("Yes");
    EmptyChoiceBlock("No");
  }

  lemma NewPollBuckets(question: string)
    ensures Buckets(NewWhoMessage(question, [])) == [Choice("Yes", []), Choice("No", [])]
  {
  }

  /**
   * A new poll with no options renders as its question, a blank line and
   * the two default headers with count 0.
   */
  lemma RenderNewPoll(question: string)
    ensures WhoList(NewWhoMessage(question, [])) == question + "\n" + "\n<b>Yes (0):</b>" + "\n<b>No (0):</b>"
  {
    NewPollBuckets(question);
    RenderTwo(Choice("Yes", []), Choice("No", []));
    YesNoBlocks();
    var y, n := "\n<b>Yes (0):</b>", "\n<b>No (0):</b>";
    assert WhoList(NewWhoMessage(question, [])) == (question + "\n") + (y + n);
    ConcatAssoc(question + "\n", y, n);
  }
}
