# Quiz command layer: a Dafny model

The quiz application keeps a table of question/answer records (Sequelize over SQLite, `model.js`)
and offers line commands over it (`cmds.js`): `show`, `add`, `delete`, `edit`, `test` and `play`.
This project models those commands and the table's constraints and start-up seeding, and proves
what they promise.

- `wrappers.dfy`, module `Wrappers`: `Option` and `Result`.
- `js_text.dfy`, module `JsText`: the three JavaScript built-ins the commands depend on, with their
  semantics written out. `String.prototype.trim` drops ECMAScript white space and line terminators at
  both ends. `String.prototype.toUpperCase` is modelled on ASCII and Latin-1. `parseInt` skips leading
  white space, takes one optional sign, switches to radix 16 after `0x`/`0X`, reads the longest digit
  prefix, and gives NaN (here `None`) when there is no digit.
- `quiz_model.dfy`, module `QuizModel`: the `Quiz` record and the validation messages of `model.js`.
  The class `QuizStore` stands for the table. Its rows are kept in id order, and ids come from a
  counter that never reuses a value, like an AUTOINCREMENT key. It has `create`, `save`, `destroy`,
  `findById`, `count` and the seed-when-empty step.
- `cmds.dfy`, module `Cmds`: `validateId`, the prompt reply, and the answer check (trim the reply,
  upper-case both sides, compare). It also holds the `show`, `add`, `delete`, `edit` and `test`
  commands as methods on a `QuizStore`. A command's terminal output is a sequence of abstract
  `Event`s. The lines the user types are parameters, in the order the command asks for them.
- `play.dfy`, module `Play`: `playCmd`. The class `Game` holds the unanswered records and the score.
  `PlayCmd` runs one loop iteration per round. It is proved equal to the recursive specification
  function `Run`, and `Run`'s invariants are proved as lemmas. Each `Math.random()` draw is a
  parameter: a real number in [0, 1).

Two behaviours of the code worth knowing:
- `validateId` keeps the sign: `"-3"` gives -3, which is a valid id that is then not found.
- The not-found message quotes the token as typed (`"No existe un quiz asociado al id=7abc."` for
  `"7abc"`), not the parsed number. The arrow function's parameter `id` is shadowed only inside the
  `.then` callback; the message is built in a later callback that sees the outer `id`.

## Model

| member | source | states |
|---|---|---|
| Cmds.ValidateId | cmds.js:16-30 | an id error says the parameter is missing exactly when no token was given |
| Cmds.ValidateIdDecimal | cmds.js:22-26 | a token made of white space, an integer in decimal, then text that does not start with a digit, yields exactly that integer |
| Cmds.ValidateIdNotANumber | cmds.js:19-26 | a present token is never missing; it is not a number exactly when no digit follows the white space and optional sign, or when "0x" has no hex digit after it |
| Cmds.ValidateIdTrailingText | cmds.js:22 | "12abc" is read as 12 |
| Cmds.ValidateIdFraction | cmds.js:22 | "3.7" is read as 3 |
| Cmds.ValidateIdNoDigits | cmds.js:22-24 | "abc" and "" are not numbers |
| Cmds.IsCorrectIgnoresCase | cmds.js:234-236 | upper-casing the reply or the stored answer does not change the verdict |
| Cmds.IsCorrectIgnoresPadding | cmds.js:234-236 | white space around the reply does not change the verdict |
| Cmds.IsCorrectOnPromptReply | cmds.js:46 | trimming the prompt reply a second time, as test and play do, does not change the verdict |
| Cmds.IsCorrectAcceptsAnswer | cmds.js:234-236 | an answer with no surrounding white space is accepted when typed back, also in upper case |
| Cmds.IsCorrectNeverOnPaddedAnswer | cmds.js:234-236 | an answer stored with white space at either end is rejected whatever the reply |
| Cmds.IsCorrectExampleRight | cmds.js:234-238 | " roma " is right for the answer "Roma" |
| Cmds.IsCorrectExampleWrong | cmds.js:234-242 | "Madrid" is wrong for the answer "Roma" |
| Cmds.ShowCmd | cmds.js:96-111 | prints the id error, or the record whose id the token parses to, or not-found with the raw token when no record has that id; then the prompt |
| Cmds.AddCmd | cmds.js:124-148 | asks for the question and then the answer; the trimmed pair is appended under the next id, the counter advances by one, and the record is echoed when it passes validation; otherwise the table and the counter are unchanged and all messages are listed |
| Cmds.DeleteCmd | cmds.js:157-166 | on an id error prints it and changes nothing; otherwise removes exactly the records with that id, prints nothing, and leaves the table as it was when no record has it; the id counter never moves back, so a deleted id is not reused |
| Cmds.EditRecord | cmds.js:188-209 | asks for the new question and answer; when the trimmed pair passes validation against the other records, the record with that id holds it, the other records stay and nothing is added; otherwise the table is unchanged and the messages are listed |
| Cmds.EditCmd | cmds.js:180-216 | an id error or an unknown id changes nothing, asks nothing and prints the error; for a known id it asks for the new question and answer, and a trimmed pair that passes validation replaces that record in place, keeps every other record, adds none and is echoed, while a rejected pair leaves the table unchanged and lists the messages |
| Cmds.TestCmd | cmds.js:225-256 | prints the id error or not-found; otherwise asks "question? " and gives the verdict of the answer check on the reply; the table is not touched |
| Cmds.NotFoundMessage | cmds.js:101 | the not-found message of show, edit and test, quoting the id token as typed (also at lines 185 and 230) |
| Cmds.PromptReply | cmds.js:42-49 | the reply makeQuestion hands over has no white space at either end, and trimming it again changes nothing |
| Cmds.IsCorrect | cmds.js:234-236 | the answer check of test and play (also lines 300-302): the trimmed reply and the answer are equal once both are upper-cased; its properties are the IsCorrect lemmas above |
| QuizModel.Violations | model.js:15-25 | the write is valid exactly when both fields are non-empty and no other record has the question; each empty-field message appears exactly when its own field is empty; no message is listed twice; the duplicate message appears exactly when both fields are non-empty and the question is taken |
| QuizModel.IndexOf | cmds.js:98 | the index found holds a record with that id; none is found only when no record has it |
| QuizModel.RemoveRecord | cmds.js:159 | keeps exactly the records with a different id, and leaves the rows unchanged when none has that id |
| QuizModel.ReplaceRecord | cmds.js:201 | the rows as `save` leaves them: the record with q's id replaced by q in its place; its effect is stated by ReplaceRecordEffect and ReplaceKeepsValid |
| QuizModel.SeedRecords | model.js:38-43 | the four seed rows Italia/Roma, Francia/París, España/Madrid, Portugal/Lisboa, numbered from the next id; SeedRecordsValid proves they meet the constraints |
| QuizModel.UniqueIds | model.js:15 | in a valid table a record is identified by its id |
| QuizModel.ReplaceRecordEffect | cmds.js:194-201 | overwriting the record with q's id keeps the number of rows, puts q in, keeps every record with another id, and adds nothing else |
| QuizModel.AppendKeepsValid | model.js:15-25 | appending a record that passes validation, under a fresh id, keeps the table valid |
| QuizModel.ReplaceKeepsValid | model.js:15-25 | overwriting a record with values that pass validation for its own id keeps the table valid |
| QuizModel.RemoveKeepsValid | cmds.js:159 | deleting by id keeps the table valid |
| QuizModel.Seeded | model.js:36-44 | a non-empty table is kept; an empty one gets four rows numbered from the next id |
| QuizModel.SeedRecordsValid | model.js:38-43 | the four seed rows meet the field constraints and have four distinct questions |
| QuizModel.SeededIdempotent | model.js:37 | seeding twice is the same as seeding once |
| QuizModel.QuizStore.constructor | model.js:34 | the table starts empty and valid, with 1 as the next id |
| QuizModel.QuizStore.FindById | cmds.js:98 | returns a stored record with that id, and nothing exactly when no record has it |
| QuizModel.QuizStore.Create | cmds.js:133 | on a valid pair appends it under the next id, advances the counter and makes the record findable; otherwise returns the messages and writes nothing |
| QuizModel.QuizStore.Save | cmds.js:201 | on values valid for the record's own id overwrites that record in place; otherwise returns the messages and writes nothing |
| QuizModel.QuizStore.Destroy | cmds.js:159 | the rows become those with a different id; the table stays valid |
| QuizModel.QuizStore.EnsureSeeded | model.js:34-44 | the rows become the seed rows when there were none and are unchanged otherwise; the counter moves past the inserted ids; the table stays valid |
| JsText.Trim | cmds.js:46 | `String.prototype.trim` as leading then trailing white space removed; TrimShape and the lemmas below state what it yields |
| JsText.Upper | cmds.js:236 | `String.prototype.toUpperCase` as UpperChar on every character; UpperCharSpec states the mapping |
| JsText.UpperChar | cmds.js:236 | the upper-case mapping of one character, specified by UpperCharSpec |
| JsText.ParseIntPrefix | cmds.js:22 | `parseInt` of one argument: NaN as None, otherwise the integer read; ParseIntDecimal and ParseIntNaN characterise it |
| JsText.TrimStartSpec | cmds.js:46 | the result is a suffix of the input, whatever is dropped is white space, and it does not start with white space |
| JsText.TrimEndSpec | cmds.js:46 | the result is a prefix of the input, whatever is dropped is white space, and it does not end with white space |
| JsText.TrimShape | cmds.js:46 | the trimmed reply has no white space at either end and is the input with white space cut from both sides |
| JsText.TrimIdempotent | cmds.js:46 | trimming twice is the same as trimming once |
| JsText.TrimIgnoresPadding | cmds.js:46 | adding white space on either side does not change the trimmed result |
| JsText.UpperCharSpec | cmds.js:236 | each ASCII and Latin-1 lower-case letter maps to its capital (0x20 lower, y with diaeresis to U+0178, the micro sign to capital mu); no lower-case letter remains; white space stays white space; every other character stays |
| JsText.UpperKeepsTrimmed | cmds.js:236 | upper-casing neither adds nor removes white space at the ends |
| JsText.UpperIdempotent | cmds.js:236 | upper-casing twice is the same as upper-casing once |
| JsText.TrimUpper | cmds.js:234-236 | trimming and upper-casing commute |
| JsText.DigitPrefixLengthSpec | cmds.js:22 | the digit prefix parseInt reads is all digits and is followed by a non-digit or the end |
| JsText.MagnitudeDecimal | cmds.js:22 | the decimal digits of a number followed by a non-digit read back as that number |
| JsText.ParseIntDecimal | cmds.js:22 | parseInt of white space, the decimal form of n, then a non-digit, is n |
| JsText.ParseIntNaN | cmds.js:22-23 | parseInt gives NaN exactly when no digit follows the white space and the optional sign, or when "0x" has no hex digit after it |
| Play.Rand | cmds.js:274-276 | rand(min, max) = draw * (max - min) + min for a given Math.random() draw |
| Play.Run | cmds.js:278-319 | playOne from a given state over the remaining rounds: won when the score reaches the number of records, otherwise ask the drawn record, splice it and continue on a right answer, stop on a wrong one; RunInvariant states what it keeps |
| Play.PickIndex | cmds.js:274-276 | floor(rand(0, n)) is a valid index of a non-empty pool |
| Play.Splice | cmds.js:307 | splicing one record out shortens the pool by one |
| Play.SpliceMultiset | cmds.js:307 | the splice removes exactly one copy of the record asked |
| Play.RunInvariant | cmds.js:278-319 | records left plus score always equal the number of records; the score never falls; the game is won exactly when the score reaches the number of records, which is exactly when none is left; a game waiting for input answered every round right; a lost game was lost before its rounds ran out |
| Play.RunLeavesSubMultiset | cmds.js:290-307 | the records left are among those the game started with |
| Play.Perfect | cmds.js:290-308 | the rounds of a player who types back the stored answer of each record drawn: one round per draw while records are left, every draw in [0, 1) |
| Play.PerfectWins | cmds.js:259-261 | with a draw for every record, a player who types back each drawn record's stored answer (stored without surrounding white space) wins: the score reaches the number of records and none is left |
| Play.NoRepeat | cmds.js:259-261 | when no two records share a question, a game never asks the same question twice, and every question asked is "question?" of a record it started with |
| Play.Game.constructor | cmds.js:266-271 | a game starts with every record in the pool and score 0 |
| Play.Game.Answer | cmds.js:297-313 | a right answer adds one to the score and splices the record out; a wrong one changes nothing |
| Play.PlayCmd | cmds.js:265-336 | plays exactly as Run; the final score never exceeds the number of records; the game is won exactly when every record was answered; with no records it is won at once with score 0 |

## Left out

- listCmd, helpCmd, creditsCmd and quitCmd: they only print fixed text or the rows, or close the channel; there is nothing to prove about them.
- Text styling: colours, the banner font of `biglog`, and the exact layout of each line. A line is one `Event` carrying the values it shows.
- The readline and socket plumbing and the promise chains: a command takes the lines typed as parameters and returns its output.
- The SQLite file, `sync()` and the `console.log` of a failing start-up: the table is an in-memory sequence of rows.
- Store failures other than validation errors, such as I/O or a locked database: the in-memory store cannot fail.
- The terminal pre-fill in edit (`rl.write` under `setTimeout` when stdout is a TTY): it only edits the line the user types, which is a parameter here.
- Sequelize's `notEmpty` also rejects a string of only white space; the model rejects only "". Every value written goes through `trim`, so the two agree on every write the commands make.
- `save()` validates only the fields that changed. The model validates both, which gives the same result because the stored values are already valid.
- `Math.random()` and the product `random * n` are doubles. The model uses exact reals, so it does not capture rounding.
- JavaScript's `parseInt` returns a double. The model returns an exact integer, so it does not capture precision lost above 2^53, negative zero, or `Infinity`.
- JsText.UpperChar: `toUpperCase` is modelled for ASCII and Latin-1 only; other characters stay unchanged.
- JsText.Upper: maps character by character, so it keeps the length of the string. Mappings that lengthen it, such as "ß" to "SS", are not captured.
- Strings are sequences of Unicode characters rather than UTF-16 code units.
- Play.PlayCmd: the first `findAll` in playCmd is not awaited, and each round queries the table again for the number of records. The model loads the pool once, counts once, and assumes the table does not change during a game. So it does not capture the race where the first round sees an empty pool, nor a table edited by another session mid-game.
- Play.PlayCmd: the branch "No existe un quiz asociado al id" inside a round is unreachable, because the index is proved in range. The re-validation of the drawn index by `validateId` is also the identity on such an index. Neither is modelled as a path.
- Play.PlayCmd: in playCmd the round's own chain (validateId, the question, the verdict) is not returned from the `.then` callback at cmds.js:281-321. So the final `.then(() => rl.prompt())` at cmds.js:330-332 runs in every round, right after the question is put, and an error thrown inside a round escapes the command's `.catch`. A lost game therefore ends with one prompt (cmds.js:313) and a won game with two (cmds.js:288 and 331). The model emits no prompt between rounds and exactly one `Prompt` when the game ends, won or lost.
- Play.PlayCmd: when the input runs out before the game ends, the command would block waiting for a reply. The model reports this as the `Pending` phase.
- Several client sessions sharing the table: each command is modelled as one atomic step on the store.
