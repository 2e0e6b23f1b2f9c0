# who_bot poll engine in Dafny

This project models the in-memory poll engine of who_bot, a Telegram bot for "who's in?" polls.

1. A `/who` command or an inline query carries text of the form `Question##Opt1#Opt2#...`. The text is split and trimmed into a question and up to ten options. With no options, the choices default to "Yes" and "No".
2. A poll is posted with a grid of buttons, two per row. Each button's payload is the decimal index of its choice.
3. Pressing a button works like this:
   - pressing the voter's current choice withdraws the vote: the last voter takes the freed slot;
   - pressing another choice switches the vote;
   - a user who has not voted is added.
4. The message text lists the question, then one block per choice: a bold header with the count, and one bullet per voter.
5. Polls live in two maps:
   - `WhoMap` holds live polls. The key is the chat message ID in decimal, or the inline message ID.
   - `ArticleIDMap` holds inline-query drafts, keyed by article ID. When the user picks the article, its draft moves into `WhoMap`.

Modules, one file each. The `.dfy` files are meant to be verified together.

- `Wrappers`: `Option` and `Result`.
- `GoStrings`: the Go string functions the core relies on, stated with their meaning. These are `strings.TrimSpace` with Unicode white space, `strings.Contains`, `strings.Split` and `strings.Join`.
- `Strconv`: `strconv.Itoa` and `strconv.Atoi` on 64-bit Go `int`.
- `Poll`: the user, voter and poll records, `NewWhoMessage`, and the well-formedness invariant of stored polls.
- `Parser`: `commandQuerySplit`.
- `Vote`: the voter lookup, the vote update and the button-press handler as a function on the store.
- `Render`: `formatUser` and `generateWhoList`.
- `Keyboard`: `generateInlineKeyboard`.
- `Bot`: the store (`WhoMap`, `ArticleIDMap`) as a class with in-place map fields. It holds the update handlers and the dispatch of `startBot`'s update loop, each proved against a pure step function on the two maps.

A voter whose index names no choice is never shown. `generateWhoList` builds a bucket labelled "Unknown Choice" for an index at or past the end of the choice list (bot.go:227), but its output loop only visits `range whoMsg.Choices` (bot.go:234). A negative index reaches `whoMsg.Choices[user.Choice]` (bot.go:225), which is a run-time panic in Go. The model follows the code:

- `Render.OutOfRangeIgnored` shows that out-of-range voters never reach the text.
- `Render.BucketVoters`, and with it `Render.GenerateWhoList`, requires non-negative indices.
- `Vote.NegativePayloadStored` shows that the button handler accepts the payload "-1", because its check bounds the index from above only.

## Model

| member | source | states |
|---|---|---|
| GoStrings.TrimSpace | bot.go:376-379 | the result neither starts nor ends with white space |
| GoStrings.TrimSpaceTrims | bot.go:376-379 | the result is the input with a run of white space removed from each end |
| GoStrings.TrimLeftSuffix | bot.go:379 | dropping leading white space leaves a suffix that does not start with white space, after only white space |
| GoStrings.TrimRightPrefix | bot.go:379 | dropping trailing white space leaves a prefix that does not end with white space, before only white space |
| GoStrings.TrimSpaceOfTrimmed | bot.go:379 | trimming text that has no white space at either end gives it back unchanged |
| GoStrings.TrimSpaceIdempotent | bot.go:379 | trimming twice is trimming once |
| GoStrings.Contains | bot.go:355 | the empty separator occurs in every text, and any other occurrence needs a text at least as long as the separator |
| GoStrings.Index | bot.go:355 | the position of the first occurrence of the separator, and -1 exactly when it does not occur |
| GoStrings.Split | bot.go:356 | there is always at least one piece, and exactly one when the separator does not occur |
| GoStrings.Join | bot.go:236 | no pieces join to the empty text, one piece to itself, and otherwise the text begins with the first piece |
| GoStrings.JoinSplit | bot.go:356 | joining the pieces with the separator gives back the text |
| GoStrings.SplitPiecesFree | bot.go:356 | no piece contains the separator |
| GoStrings.SplitWithout | bot.go:361 | text without a one-character separator splits into itself alone |
| GoStrings.SplitJoin | bot.go:361 | splitting pieces joined by a one-character separator they do not contain gives back the pieces |
| Strconv.NatToDecimalDenotes | bot.go:55 | the decimal form of n is non-empty, all digits, with no leading zero, and denotes n |
| Strconv.Itoa | bot.go:262 | a non-empty text that starts with '-' exactly for a negative number, followed by digits only |
| Strconv.Atoi | bot.go:285-288 | a parsed value fits in a 64-bit int, and the text starts with a digit or a sign |
| Strconv.AtoiItoa | bot.go:285 | `Atoi(Itoa(n)) == Some(n)` for every 64-bit n |
| Strconv.AtoiNegative | bot.go:285 | `Atoi(Itoa(n)) == Some(n)` for every negative 64-bit n |
| Strconv.AtoiMinusOne | bot.go:285-290 | "-1" parses as -1 |
| Strconv.ItoaInjective | bot.go:262 | distinct message IDs give distinct store keys |
| Poll.NewWhoMessage | bot.go:67-75 | no voters, the question kept, the options kept when any are given, else "Yes"/"No" |
| Parser.RawSplit | bot.go:354-369 | empty text gives "Who's Down" and no options; text that splits on `##` into two parts gives the first part and the `#`-pieces of the second; any other text is the question, whole, with no options |
| Parser.Parse | bot.go:353-381 | the error holds exactly when there are more than ten raw options; otherwise the question and every option have no white space at either end, and there are as many options as raw pieces, at most ten |
| Parser.TrimEach | bot.go:376-378 | each option is replaced by its trimmed form, in order |
| Parser.TrimOptions | bot.go:376-378 | the in-place loop leaves option i as the trimmed raw option i, for every i |
| Parser.CommandQuerySplit | bot.go:353-381 | the error is returned exactly when the parse has more than ten options; otherwise question and options are those of `Parse` |
| Parser.ParseEmpty | bot.go:367-369 | empty text asks "Who's Down" with no options |
| Parser.ParseUndelimited | bot.go:354-366 | text that does not split on `##` into two parts becomes the trimmed question with no options |
| Parser.ParseDelimited | bot.go:355-380 | two `##`-parts give the trimmed first part as question and the trimmed `#`-pieces as options, at least one; the error holds exactly when there are more than ten pieces |
| Parser.ParseOptionsIff | bot.go:354-369 | options are present exactly when the text split on `##` into two parts |
| Parser.TwoParts | bot.go:356-360 | text that splits on `##` into two parts is the first part, `##`, then the second part, and the first part has no `##` |
| Parser.ParseReconstructs | bot.go:355-362 | a command with options is `q##o1#...#on`: the question is `q` trimmed and each option is a `#`-free raw piece trimmed |
| Parser.CreatedPollChoices | bot.go:371-374 | a poll from an accepted command has between 1 and 10 choices and no voters |
| Vote.IndexOfVoter | bot.go:277-283 | the first index of a voter with the given ID, or -1 exactly when there is none |
| Vote.FindVoter | bot.go:277-283 | the scan with early exit returns that first index, or -1 |
| Vote.Voted | bot.go:295-308 | withdraw: length minus one, last voter in the freed slot, all else unchanged; switch: only that voter's choice changes; new voter: appended |
| Vote.ApplyVote | bot.go:295-308 | the swap-and-truncate, in-place update or append computes `Voted` |
| Vote.VotedKeepsUnique | bot.go:295-308 | at most one voter per user ID is preserved |
| Vote.VotedBelow | bot.go:290-308 | with the pressed index below n, all voters stay below n |
| Vote.VotedMembership | bot.go:295-308 | the presser remains a voter, with the pressed choice, exactly when they did not press their current choice |
| Vote.DoublePressRestores | bot.go:295-308 | a non-voter pressing the same button twice leaves the voters exactly as before |
| Vote.MessageKey | bot.go:261-270 | a non-zero chat message ID wins and gives its decimal form; else a non-empty inline message ID is the key; no key exactly when there is neither |
| Vote.Callback | bot.go:261-308 | each of the four errors arises exactly in its case; success stores the poll under its key with question and choices kept and the voters as `Voted` |
| Vote.CallbackKeepsWellFormed | bot.go:290-326 | a successful press keeps the stored poll well formed |
| Vote.DoubleCallbackRestoresStore | bot.go:295-326 | two identical presses by a non-voter give back the original store |
| Vote.NegativePayloadStored | bot.go:285-293 | the payload "-1" is accepted and the presser is written back with choice -1 |
| Render.DisplayName | bot.go:179-191 | "First Last", else first name, else last name, else the handle, else "Unknown", never empty |
| Render.FormatUser | bot.go:193-198 | the name is wrapped in a `telegram.me` link exactly when the user has a handle |
| Render.BulletsOf | bot.go:219 | one bullet line per voter, in order |
| Render.ChoiceBlock | bot.go:235 | the block starts on a new line with the bold label and an opening parenthesis, and ends with the bullets run together |
| Render.WhoList | bot.go:233-237 | the text starts with the question and a newline |
| Render.Buckets | bot.go:207-231 | bucket i has label choice i and the bullets of the voters of choice i, in storage order |
| Render.BucketVoters | bot.go:207-231 | the two loops fill the bucket map so that every choice index holds exactly that bucket |
| Render.GenerateWhoList | bot.go:206-240 | the text is the question, a newline, then the block of each choice in creation order |
| Render.BucketMember | bot.go:215-230 | a voter appears in bucket c exactly when it is a voter with choice c |
| Render.BucketConcat | bot.go:215-230 | bucketing preserves storage order |
| Render.OutOfRangeIgnored | bot.go:222-236 | dropping voters whose index names no choice leaves the text unchanged |
| Render.TallyCountsVoters | bot.go:233-237 | the header counts sum to the number of in-range voters, so to the number of voters in a well-formed poll |
| Render.BucketsDisjoint | bot.go:215-230 | with one voter per user, no user is in the blocks of two choices |
| Render.VoteMovesBullet | bot.go:295-308 | after a press the presser's bullet is in the pressed choice's block only, or in none when the vote was withdrawn |
| Render.EmptyChoiceBlock | bot.go:235 | a choice without voters prints as the header `<b>label (0):</b>` after a newline |
| Render.RenderNewPoll | bot.go:233-237 | a new poll with default choices renders as its question, a newline, then `\n<b>Yes (0):</b>` and `\n<b>No (0):</b>` |
| Keyboard.AllButtons | bot.go:52-56 | one button per choice, its label the choice and its payload the index in decimal |
| Keyboard.GenerateInlineKeyboard | bot.go:42-65 | ceil(n/2) rows, all of two buttons except a last row of one when n is odd, and read row by row the buttons are those of every choice in order |
| Keyboard.FlattenFullRows | bot.go:45-59 | full rows hold two buttons each |
| Keyboard.FlattenAt | bot.go:45-59 | with full rows before it, button j of row r is button 2r+j of the whole |
| Keyboard.RowButton | bot.go:45-59 | row r holds choices 2r and 2r+1, with those payloads |
| Keyboard.PayloadSelectsChoice | bot.go:55 | a button's payload reads back through `Atoi` as its choice's index |
| Bot.Created | bot.go:334-339 | a poll is created exactly when the command is accepted, with no voters, the parsed question, and the parsed options as choices, or "Yes"/"No" when there are none |
| Bot.AfterWho | bot.go:333-351 | a rejected command changes nothing; an accepted one adds or replaces exactly the poll under the decimal message ID and touches no draft |
| Bot.AfterInline | bot.go:383-391 | a rejected text changes nothing; an accepted one adds or replaces exactly the draft under the article ID and touches no live poll |
| Bot.AfterCallback | bot.go:285-326 | a press never adds or removes a poll, never touches a draft, changes nothing on error, changes no poll but its own, and keeps every question and choice list |
| Bot.AfterChosen | bot.go:166-174 | a known result ID is removed from the drafts and its poll stored live under the inline message ID; an unknown one changes neither map |
| Bot.CreatedWellFormed | bot.go:67-75 | a created poll is well formed |
| Bot.AfterWhoValid | bot.go:333-351 | the `/who` handler keeps every stored poll well formed |
| Bot.AfterInlineValid | bot.go:383-391 | the inline-query handler keeps every stored poll well formed |
| Bot.AfterChosenValid | bot.go:166-174 | the migration keeps every stored poll well formed |
| Bot.AfterCallbackValid | bot.go:285-326 | the button handler keeps every stored poll well formed |
| Bot.StepKeepsValid | bot.go:147-175 | every update keeps every stored poll well formed |
| Bot.Step | bot.go:147-175 | no update removes a live poll; drafts appear only under the update's article ID and disappear only when chosen |
| Bot.DraftPublished | bot.go:166-174 | a query followed by the choice of its article publishes the created poll and leaves the drafts as before the query |
| Bot.DraftMoves | bot.go:166-174 | choosing a draft just inserted under a fresh article ID stores it live and restores the drafts |
| Bot.ButtonPressVotes | bot.go:285-308 | pressing the button of choice k on a stored poll votes for k |
| Bot.WhoBot.constructor | bot.go:39-40 | both maps start empty |
| Bot.WhoBot.RunWhoCommand | bot.go:333-351 | the store changes as `AfterWho`; the posted text is that of the new poll, and its keyboard has ceil(n/2) rows of two buttons, one in the last row when n is odd, read row by row the buttons of every choice; nothing is posted when the command is rejected |
| Bot.WhoBot.RunInlineQueryWhoCommand | bot.go:383-401 | the draft is stored under the article ID; the article has that ID, the question as title, and the poll's text and keyboard, laid out two buttons per row as in `RunWhoCommand` |
| Bot.WhoBot.ChooseInlineResult | bot.go:166-174 | the store changes as `AfterChosen` |
| Bot.WhoBot.WhoCBQuery | bot.go:242-327 | the store changes as `Callback` says, and the reported error is exactly `Callback`'s |
| Bot.WhoBot.HandleUpdate | bot.go:147-175 | one update changes the store as `Step` says, and every stored poll stays well formed |

## Left out

- main.go: the command-line flags, the snapshot of `WhoMap` to a file with `encoding/gob`, and the signal handling. These are I/O and concurrency.
- The transport in `startBot` (bot.go:107-145): webhook and TLS setup, the HTTP server goroutine and the long-poll channel. These are network and concurrency. The update loop body is modelled by `HandleUpdate`.
- Outbound calls (`bot.Send`, `AnswerCallbackQuery`, `AnswerInlineQuery`, `log`): these are network calls and do not touch the maps. The alert text "Error! ..." of a failed press is not modelled; the error value is returned instead.
- The sent message's ID is a parameter of `RunWhoCommand`. A failed send gives ID 0 in the source.
- `RandStringBytesMaskImprSrc` and its seeding: the randomness is left out, and the article ID is a parameter.
- `math.Ceil` in the row count is replaced by the integer `(n + 1) / 2`.
- Strings are sequences of characters. Go's byte strings and invalid UTF-8 are not modelled.
- The bullet sign is the character sequence that appears in the source text at bot.go:219.
- `IsCommand`, `Command` and `CommandArguments` of the platform library are not modelled. A message carries its command and arguments already parsed.
- Go slice aliasing: the `Users` slice of the local poll shares its backing array with the stored poll. Polls are modelled as values written back at bot.go:326.
- Render.BucketVoters: requires every voter's index to be non-negative, as does Render.GenerateWhoList, which calls it. The source indexes the choice list with a negative index at bot.go:225, a run-time panic that the model does not represent.
- Bot.WhoBot.WhoCBQuery: does not model the edit of the posted message at bot.go:310-324. In the source, that edit renders the updated poll before the write-back at bot.go:326. For a negative index the render panics. The deferred answer at bot.go:245-256 runs but does not recover, so the panic ends the whole process before the write-back. Every poll of that run is then lost, because main.go writes its snapshot of `WhoMap` only on SIGINT or SIGTERM. The model performs the write-back.
