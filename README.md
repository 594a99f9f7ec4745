# Network-exam quiz bot for Slack, modelled in Dafny

The bot posts practice questions to a Slack team. `generateQuiz` takes a
question page of the exam site and turns it into a Slack message:

- the question text followed by one line per text option;
- one gray attachment per question image, shown through the bot's image proxy;
- one button per option, whose `name` encodes whether that option is the
  correct one (`collect` or `wrong`).

When any option is an image, the quiz switches to image mode. Each image
option then gets an attachment of its own with callback `nw_answer`, and
text options are appended as bare buttons. Otherwise the buttons sit in
the main attachment, whose callback is `db_answer`.

The `interactive_message_callback` handler grades a click from the
button's `name` alone, with no server state. At 13:00 and 18:00 on
weekdays a cron tick posts a "3 minute" article: its number is padded to
two characters, except 0, and put into a fixed URL, and the tick saves an
advanced counter. The repository also holds an S3 storage adapter that
provides teams, users and channels collections, each a key prefix in one
bucket; the bot itself is wired to a MongoDB storage, and the model pairs
the cron tick's save with the S3 adapter.

The modules follow the program:

- `Wrappers` defines `Option` and `Result`.
- `Strings` defines decimal numerals and string predicates.
- `Slack` defines the message payloads, and which buttons and clicks a list
  of attachments offers.
- `ImageUrl` defines the rewrite `link.replace(/am2_\d+\.html/i, src)` and
  the proxied URL.
- `Quiz` defines `generateQuiz`. It is written as a method with the
  source's loops, proved against the declarative `QuizMessage`.
- `Grading` defines the callback handler and the round trip from page to
  verdict.
- `Article` defines `post3minArticle` and the cron tick's counter.
- `Storage` defines the S3 adapter. It is a class whose `objects` map
  stands for the bucket.

The model follows the code where a description of the system would suggest
otherwise:

- Article number 0 is printed as `0`, not `00`.
- From 100 on, only the last two digits of the number remain.
- A link that does not match the pattern is returned unchanged.
- The proxied URL is not encoded.
- An empty `id` attribute counts as a wrong option, as JavaScript
  truthiness has it.
- Text options in image mode become bare buttons in the attachment list.
  Slack offers nothing to click for them; `Grading.ImageModeClicks` states
  this.
- In text mode every click arrives with callback `db_answer`, which the
  handler ignores; `Grading.TextModeClicksIgnored` states this.

## Model

| member | source | states |
|---|---|---|
| Quiz.QuizMessage | index.js:228-261 | Definition of the posted message; its properties are stated by `Quiz.QuizLayout`, `Quiz.MessageButtons` and the `Grading` lemmas, and `Quiz.GenerateQuiz` is proved to produce it. |
| Quiz.Token | index.js:203 | Definition of the button `name`; its properties are stated by `Grading.TokenDependsOnMarkerOnly` and `Grading.TokenRoundTrip`. |
| Quiz.AnswerButton | index.js:201-206 | Definition of an option's button; its properties are stated by `Quiz.AnswerEntries` and `Grading.TokenRoundTrip`. |
| Quiz.GenerateQuiz | index.js:195-261 | The message handed to the callback is `QuizMessage` of the parsed page: the `.qno` text, then the attachments as built by the two loops and the image-mode branch. |
| Quiz.EachOption | index.js:196-226 | After the `.selectBtn` loop, `q` is the prompt, `anss` holds one answer entry per option in page order, and the image-mode flag equals `ChoiceByImg` of the options. |
| Quiz.EachStep | index.js:200-225 | One option adds its line to `q` only when it has no image, appends exactly one entry to `anss`, and raises the flag exactly when it has an image. |
| Quiz.OptionStep | index.js:199-226 | Extending the processed prefix by one option extends the prompt lines, the entries and the flag by that option's contribution. |
| Quiz.ShowImages | index.js:237-247 | The attachments are the main one followed by one gray attachment per `.img_margin` image, in page order. |
| Quiz.ChoiceByImgIff | index.js:198-213 | Image mode holds if and only if some option shows an image. |
| Quiz.PromptIsTextOptionLines | index.js:196-210 | The prompt is the question text, a blank line, then `<marker>.  <div text>` for each text option in page order; image options add nothing. |
| Quiz.PromptLinesText | index.js:209-210 | The lines the loop adds equal the lines of the text options alone. |
| Quiz.AnswerEntries | index.js:201-224 | One entry per option: a text option's bare button, or a gray `nw_answer` attachment whose fallback is the rewritten URL, whose image is the proxied rewritten URL, and whose only action is that button. |
| Quiz.QuizLayout | index.js:228-256 | The main attachment comes first, with the prompt as title, the note plus link, callback `db_answer`, and actions that are the answers in text mode and absent in image mode. One attachment per image follows, with the question number as text. In image mode the answers come last. |
| Quiz.ImageAttachmentsShape | index.js:238-246 | Each question-image attachment has the question number as text, no actions, and the proxied rewritten URL as image. |
| Quiz.MessageButtons | index.js:199-256 | In either layout, the buttons of the message are exactly the options' buttons, in page order. |
| Quiz.AnswersButtons | index.js:209-224 | The buttons inside the answer entries are the options' buttons, in order. |
| Quiz.BareAnswersAreButtons | index.js:250-256 | Without image mode every entry is a bare button, so the main attachment's actions are all the options' buttons. |
| Quiz.ImageAttachmentsHaveNoButtons | index.js:241-246 | Attachments without actions hold no buttons. |
| Grading.HandleClick | index.js:159-183 | Definition of the callback handler; its properties are stated by `Grading.GradingReply`. |
| Grading.Decode | index.js:161 | Definition of the verdict of a clicked action's name; its properties are stated by `Grading.GradingReply` and `Grading.TokenRoundTrip`. |
| Grading.GradingReply | index.js:159-183 | Other callbacks are ignored. An `nw_answer` click without actions throws. Otherwise the reply keeps the original text and carries one attachment whose text starts with `:white_check_mark:` exactly when the first action is named `collect` (`:x:` otherwise) and mentions the user. The attachment is `good` or `danger` accordingly, it goes in channel, and the original is not replaced. |
| Grading.VerdictTextShape | index.js:162-167 | The verdict text starts with the correct mark if and only if the verdict is correct, with the wrong mark if and only if it is wrong, and mentions the user. |
| Grading.TokenRoundTrip | index.js:159-203 | An option's token decodes to correct exactly when its `id` attribute was truthy, and an `nw_answer` click on its button is graded `good` exactly then. |
| Grading.TokenDependsOnMarkerOnly | index.js:203 | The token is `collect` or `wrong`, and depends on the marker's truthiness only. |
| Grading.QuizRoundTrip | index.js:159-256 | The token of the i-th button of the posted quiz decodes to correct exactly when the i-th option was marked, and an `nw_answer` click on that button is graded. Which buttons Slack offers such a click is stated by `Grading.ImageModeClicks` and `Grading.TextModeClicksIgnored`. |
| Grading.NoMarkerAllWrong | index.js:159-256 | With no option marked, an `nw_answer` click on any button of the quiz is graded `danger`, and every click Slack delivers for the posted quiz is either ignored or graded `danger`. |
| Grading.TextModeClicksIgnored | index.js:159-256 | Without image mode every click Slack delivers carries `db_answer` and is ignored by the handler. |
| Grading.ImageModeClicks | index.js:159-251 | In image mode the deliverable clicks are exactly those of the image options, in page order, each with callback `nw_answer` and that option's token. |
| Grading.ImageModeGrading | index.js:159-224 | In image mode every deliverable click is graded, and grades `good` exactly when its option was marked. Together with `Grading.TextModeClicksIgnored`, these image-option clicks are the only clicks of a posted quiz that the handler grades. |
| Grading.OnlyMainClickable | index.js:228-247 | With only the main attachment carrying actions, the clicks are those of the main attachment. |
| Grading.OnlyAnswersClickable | index.js:228-251 | In image mode only the answer entries yield clicks. |
| Grading.AnswersClicks | index.js:209-224 | The clicks of the answer entries are those of the image options, in order. |
| ImageUrl.Rewrite | index.js:215 | Definition of `link.replace(/am2_\d+\.html/i, src)`; its properties are stated by `ImageUrl.RewriteNoMatch` and `ImageUrl.RewriteFirstMatch`. |
| ImageUrl.Proxied | index.js:219 | Definition of the proxied image URL, the base then `image?url=` then the URL unencoded; its use is stated by `Quiz.AnswerEntries` and `Quiz.ImageAttachmentsShape`. |
| ImageUrl.MatchAtSound | index.js:215 | A match found at a position is an occurrence of `am2_<digits>.html`, case-insensitive. |
| ImageUrl.MatchAtComplete | index.js:215 | Every occurrence at a position is the match found there. |
| ImageUrl.DigitRunMaximal | index.js:215 | `\d+` takes the whole run of digits. |
| ImageUrl.FindFromLeftmost | index.js:215 | The search finds the leftmost match, and finds none only when no position matches. |
| ImageUrl.RewriteNoMatch | index.js:215 | With no occurrence of the pattern, the link comes back unchanged. |
| ImageUrl.RewriteFirstMatch | index.js:215 | The leftmost occurrence, and only it, is replaced by `src`. |
| ImageUrl.RewriteExample | index.js:215 | `h/AM2_7.html` with `x.png` becomes `h/x.png`: the page name is replaced whatever its case. |
| Article.Padded | index.js:267 | Definition of the padded number; its properties are stated by `Article.PaddedCases` and `Article.PaddedDigits`. |
| Article.ArticleText | index.js:268-270 | Definition of the article text; its properties are stated by `Article.ArticleTextShape`. |
| Article.PostArticle | index.js:266-277 | Definition of where the text goes; used by `Article.ThreeMinTick`, whose contract states the channel post. |
| Article.CounterRecord | index.js:131 | Definition of the saved counter record; its properties are stated by `Article.CounterAdvances`. |
| Article.PaddedDigits | index.js:267 | For a positive number, the padded form is its tens digit then its units digit. |
| Article.PaddedCases | index.js:267 | 0 gives `0`; 1 to 9 gain a leading zero; 10 to 99 print unchanged; from 100 on only the last two digits remain. |
| Article.PaddedKeepsLastTwo | index.js:267 | From 10 on, the padded form is the last two characters of the decimal numeral. |
| Article.PaddedExamples | index.js:267 | 0, 5, 42 and 123 pad to `0`, `05`, `42` and `23`. |
| Article.ArticleTextShape | index.js:268-270 | The posted text shows `<no>/81` and ends with the article URL built from the padded number. |
| Article.CounterAdvances | index.js:131 | After the tick's save, the teams collection holds `articleNo` with `no` one higher. |
| Article.ThreeMinTick | index.js:128-131 | The tick posts the article text in `ipa-nw`. The bucket then holds the advanced counter under the teams prefix if the write succeeds, and is unchanged otherwise. |
| Strings.NatToStringRoundTrip | index.js:269 | The decimal numeral printed for a number reads back as that number. |
| Storage.Prefix | s3_storage.js:22-24 | Definition of a collection's key prefix; its properties are stated by `Storage.PrefixesDisjoint`. |
| Storage.Key | s3_storage.js:111-136 | Definition of a record's key, prefix then id; its properties are stated by `Storage.KeyInjective`. |
| Storage.Region | s3_storage.js:30 | A missing or empty region falls back to `us-east-1`, so the region is never empty. |
| Storage.PrefixesDisjoint | s3_storage.js:22-24 | No key of one collection lies under another collection's prefix. |
| Storage.KeyInjective | s3_storage.js:22-24 | A key names one collection and one id. |
| Storage.SaveThenGet | s3_storage.js:110-115 | `get(id)` after `save(r)` with `r.id == id` finds `r`. |
| Storage.SaveOverwrites | s3_storage.js:113-115 | A second save with the same id replaces the first. |
| Storage.SaveKeepsOtherIds | s3_storage.js:110-115 | A save leaves every other id of its collection as it was. |
| Storage.SaveIsolation | s3_storage.js:108-142 | A save in one collection changes neither `get` of another nor the records another collection's `all` can gather. |
| Storage.SaveIsolationGathered | s3_storage.js:85-118 | On any bucket, a save in one collection leaves exactly the same maps acceptable as what `list` gathers for another collection. |
| Storage.SaveInView | s3_storage.js:113-118 | A saved record whose fetch succeeds appears in its collection's `all` under its id. |
| Storage.SavePreservesConsistent | s3_storage.js:113-136 | Saves keep every record under the key its id names. |
| Storage.GatheredIsView | s3_storage.js:85-101 | On a consistent bucket, what `list` gathers for a collection is exactly the fetchable records under its prefix, keyed by id. |
| Storage.S3Storage.constructor | s3_storage.js:22-31 | The adapter keeps the path and bucket, and the region is `Storage.Region` of the configuration: a missing or empty region falls back to `us-east-1`. |
| Storage.S3Storage.Put | s3_storage.js:46-59 | A successful write stores the record at the key and reports no error. A failed one reports the error and changes nothing. |
| Storage.S3Storage.Get | s3_storage.js:60-73 | Succeeds exactly when the request goes through and the key exists, returning the stored record. Otherwise it fails with no-such-key or a request error. |
| Storage.S3Storage.List | s3_storage.js:74-104 | A failed listing passes on the error and no map. Otherwise every fetched record under the prefix is entered under its id, and every entry is such a record. No error is reported exactly when no fetch fails, and a reported error is that of a failed fetch under the prefix. |
| Storage.S3Storage.CollectionGet | s3_storage.js:110-134 | Finds a record exactly when the key `prefix + id` holds one and the request goes through. A failed request gives a request error, and an absent key whose request goes through gives no-such-key for that key. |
| Storage.S3Storage.Save | s3_storage.js:113-137 | Writes the record at `prefix + record.id` if the write succeeds, and leaves the bucket unchanged otherwise. |
| Storage.S3Storage.All | s3_storage.js:116-140 | A failed listing gives the error. Otherwise the result is a list exactly when every fetch succeeds; the list holds each gathered record once, and on error the gathered map is passed on. |
| Storage.ObjectsToList | s3_storage.js:33-43 | An error passes through with the data unchanged. Otherwise the result lists each value of the map once, one per key. |
| Storage.Open | s3_storage.js:16-20 | A missing configuration gives no collections. A present one gives a fresh adapter over the configured path. |

## Left out

- Botkit, the RTM connection and its open/close handlers are left out: they are I/O. `hears('quiz')` only passes the message on.
- Fetching the two pages and parsing them are left out. The page is given already parsed as `Quiz.Page`, and the `href` of the question link is folded into `link`. A failed fetch of the front page (which only logs) is not modelled, nor is a failed fetch of the question page (whose error the source ignores).
- `Quiz.Page`: an image inside an option's `div`, or an `.img_margin` element, without a `src` attribute is not modelled. The source would then put the string `undefined` in place of the matched page name, or leave the link unchanged when nothing matches.
- `ImageUrl.Rewrite`: replacement patterns such as `$&` in `src` are not interpreted. Case folding covers ASCII only, which is all the pattern holds.
- `process.env.HEROKU_URL` is the parameter `proxyBase`.
- The image proxy endpoint itself is left out.
- The cron schedule and its time zone are left out, as is the quiz cron: they are clocks. `Article.ThreeMinTick` models one tick.
- The tick reads the counter synchronously with `teams.get('articleNo')`, which returns no value, so as written the counter is always 0. Even a `get` that answered synchronously would give the whole record `{id, no}`, not the number: the text would print that object and `no + 1` would build a string. The model takes the counter as a given number `no`. The read-then-save race between ticks is not modelled.
- index.js gives its controller a MongoDB storage, not the S3 adapter. `Article.ThreeMinTick` saves through the S3 adapter, which offers the same `teams.save`. The MongoDB module is not part of this model.
- `hears('3min')` picks a random article number with `Math.ramdom`, which does not exist, so the handler throws. Randomness is left out. `Article.PostArticle` covers the reply path for any given number.
- The AWS SDK configuration of credentials is left out. `Storage.Config` keeps the keys but nothing uses them.
- JSON encoding and decoding of records are left out: a record is stored and read back as itself.
- `Storage.S3Storage.List` and `Storage.S3Storage.All`: `async.parallel` runs the fetches concurrently. The model fetches in an unspecified order, one at a time. On the first error the source may call back before the remaining fetches finish, so its map can be partial; the model's map holds every successful fetch. `All` passes that map on with the error, so there too the source's map may be smaller.
- `Storage.S3Storage.List`: the listing cap of 1000 keys per `listObjects` call is not modelled.
- `Storage.ObjectsToList`: with neither an error nor data, JavaScript would throw inside `Object.keys`. `list` never passes that combination, and the model returns an empty list.
- Network failures are parameters: `reachable`, `listReachable` and the set `failing` of keys whose fetch fails.
- `Strings.NatToString`: numbers are unbounded. JavaScript's double precision is not modelled: from 10^21 on `'' + no` prints exponent notation, and past 2^53 `no + 1` stops changing the value. The counter (always 0 as written) and the `3min` number (below 81) never reach these values.
