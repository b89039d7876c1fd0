# Boat Rudder: a verified model

Boat Rudder is a web and WAP server for one site. This project models the parts of it whose
behaviour is hardest to see from the code, and proves what they promise for every input, every
run and every interleaving:

- **WML to WBXML** (`src/wap_gateway/wbxml.c`): the tolerant WML parser, the WML printer, the
  token compiler and the paginator that cuts a card into single-packet pages. `WmlParser`,
  `WmlTolerance`, `WmlText`, `WmlPrinter`, `WmlForm`, `WmlString`, `WmlVariables`, `WmlTokens`, `Wbxml`, `SeamText`,
  `Paginator`, `Conservation`, `PageNav`, `PageUri`, `Measure`, `Deck`, `PageHeads`, `PageBound`, `PageFill`, `Delivery`,
  `Browsing`, `Sending`, `HttpPages`.
- **The code highlighter** (`src/utils/code_highlight.c`): `Languages`, `Markup`, `Highlight`,
  `TokenClasses`.
- **The captcha's image encoders** (`src/utils/captcha.c`): `Bits`, `Gif`, `Crc32`, `Png`.
- **The Markdown renderer** (`src/utils/markdown_lite.c`): `HtmlTags`, `Markdown`, `MarkdownBlocks`.
- **The comment lifecycle** (`src/db/cms_comments.c`): `Comments`, `CommentStore`, `CommentRuns`,
  `CommentSteps`.
- **The extension supervisor** (`src/extensions/extensions.c`): `Supervisor`, `SupervisorSteps`.
- **The mail queue** (`src/utils/mailer.c`): `MailQueue`, `MailSteps`.
- **The HTTP/0.9 header stripper** (`src/web_server/connection.c`): `HeaderStrip`.

`Ascii` and `Options` hold what several modules share. `dafny verify dfyconfig.toml` checks
everything.

## Main results

| result | stated in |
|---|---|
| A WBXML decoder reads all of a compiled card back as its meaning, and the compiler knows exactly the format's names | `Wbxml.CardDecodes`, `WmlTokens.ElementKnownExactly`, `WmlTokens.AttrKnownExactly` |
| From source text to packet: every page sent decodes, and together they show the card | `Sending.PageSentDecodes` |
| When variable strings keep the meaning WML gives them, in every environment | `WmlVariables.VariablesMean` |
| Parser and printer undo each other on normal trees, and which sources parse to one | `WmlPrinter.RoundTrip`, `WmlForm.ParseNormalExactly` |
| What entities and white space in a source mean, and what is not well formed | `WmlText.EntityDecodes`, `WmlText.OtherCopied`, `WmlText.TextMeans`, `WmlTolerance.EndTagMeans` |
| A page printed for HTTP parses back to its title, blocks and links | `HttpPages.HttpPageReads` |
| Pagination loses, doubles and reorders nothing, and the packing loop ends | `Conservation.DeckConserves`, `Paginator.PackPages` |
| Every page fits its packet, title, links and base included | `PageBound.PageWithinPacket` |
| Every page is full: the most words, children and blocks that fit | `PageFill.DeckFull`, `PageFill.SplitLargest`, `PageFill.TextCutLargest` |
| Page links read back, can be set again, and following them shows every page | `PageNav.PageReadsBack`, `PageNav.SetTwice`, `PageUri.OrderlyNavigates`, `Browsing.EveryPageIsShown` |
| When gateway and HTTP cut a deck alike | `Delivery.SamePagesGuard`, `Delivery.SamePagesExactly` |
| Highlighted code erases back to the source, every token in the class the language's rules ask for | `Highlight.HighlightLosesNothing`, `TokenClasses.CodeClasses`, `TokenClasses.HtmlClasses` |
| GIF and PNG files read back, within the buffers computed for them | `Gif.EncodeGif`, `Png.EncodePng`, `Crc32.CrcTable.Crc32Of` |
| Markdown output is well nested with safe links only, and is its source's blocks and marks | `Markdown.DocumentNests`, `MarkdownBlocks.DocumentIs`, `MarkdownBlocks.InlineMeans` |
| Comment safety over every interleaving | `Comments.CommentSafety`, `Comments.StepOnward`, `Comments.RankNeverFalls`, `Comments.NeverExpires` |
| What every step does to a comment, a link and a user, and who had the last word on a status | `CommentSteps.DocStep`, `CommentSteps.LinkStep`, `CommentSteps.VerdictExactly` |
| When a reply keeps its first date, only the newest link confirms, and a comment has 24 hours | `CommentRuns.DateKeptExactly`, `CommentRuns.NewestOnlyConfirms`, `CommentRuns.ExpiresExactly` |
| Supervisor safety over every run | `Supervisor.SupervisorSafety`, `Supervisor.FailedUntilEnabled`, `Supervisor.FailedThroughoutExactly`, `SupervisorSteps.RunningExactly` |
| The mail queue under crashes | `MailQueue.HandedAtMost`, `MailQueue.FinalForGood`, `MailQueue.NeverTooEarly`, `MailSteps.FateExactly` |
| Header stripping does not depend on how a response is cut | `HeaderStrip.CutsDoNotMatter`, `HeaderStrip.Connection.Write` |

## How the model is built

Code that works by loops and updates is a method over the same buffers, arrays and fields, proved
equal to a specification function; the theorems are lemmas about those functions. The readers that
the results speak of (WBXML decoder, GIF, inflate and PNG readers, the strict readers of highlighter
markup and of Markdown's HTML) are written from the formats, with the formats' own bytes and tables, not from the
encoders. What an operation means is told apart from how it goes about it: modules such as `TokenClasses`, `WmlText`
and `CommentSteps` define it without the operation's own functions.

- A C `char` is a Dafny `char`, a C string a `string` without its NUL; where a NUL inside matters the
  result says NUL-free. A byte of an image is a number below 256.
- Growing buffers are sequences, and memory allocation succeeds.
- WML nodes are values. The parser attaches an element to its parent when the element is closed or the
  input ends, not when it is opened; the finished tree is the same.
- A NULL link base of the compiler is the empty base; an absent Markdown link base is `None`.
- `g->bits |= code << nbits` is an addition, which is the same because the invariant keeps the bits
  below the position empty.
- A database call is one atomic step on maps of documents. Operations on their way are part of the
  state, so the steps of any number of them interleave; the methods of `CommentStore.Store` and
  `MailQueue.Mailer` say which steps one uninterrupted call is. Clock readings, random tokens, new ids,
  SMTP answers, process exits, `fork` results and directory listings are chosen by the environment.
- New object ids are new: no id of a comment or user is given out twice. Token hashes need not be.
- `Supervisor` assumes that the system does not hand out a process id twice and that the clock does not
  go back. `exits` in its entries is history for the proofs; the code keeps only the count.
- `MailQueue` assumes one server on a queue at a time, as the single sender thread does.

## Where code and documentation differ

- `src/wap_gateway/wbxml.c:791-812` says gateway and HTTP always reserve the same room, so a deck splits
  at the same points. For an ordinary path every deck does exactly when `scheme://host` has at most the 25 bytes of the
  reference one and the path has no `://` in it (`Delivery.SamePagesGuard`; `Delivery.LongHostExample`,
  `Delivery.EmbeddedUriExample`).
- `src/wap_gateway/wbxml.c:391-396` follows the variable syntax of WML, where conversions are named in either case.
  The code knows `escape` and `unesc` in lower case only and takes any other text for no conversion
  (`WmlVariables.VariablesMean`, `WmlVariables.ConvExamples`).
- `src/wap_gateway/wbxml.c:866` calls a block sent whole unsplittable. One that opens with a bare separator beside
  which its next child does not fit is sent whole too, even where each child alone would fit a page and the later ones
  are small (`PageBound.RefusedExactly`, `PageBound.LeadingBarRefuses`, `Delivery.LeadingBarExample`).
- A second page parameter in a URI survives and wins over the one that is set (`PageNav.PageReadsBack`,
  `PageUri.SecondParamExample`), and a trailing separator is eaten by the second setting (`PageNav.SetTwice`,
  `PageUri.OpenQueryExample`).
- `develop_docs/reference/extensions.md:27` says a failed extension stays so until re-enabled. While nobody
  switches it, it does exactly as long as every scan finds its directory and a usable manifest there
  (`Supervisor.FailedThroughoutExactly`). A manifest found unusable once lets it be launched again
  (`Supervisor.UnusableOnceForgets`); a directory missed once lists it as new and disabled
  (`Supervisor.MissedOnceForgets`).
- `src/db/cms_comments.c:1030` says a reply written again keeps its first date. It does exactly while no reply is
  deleted and none is written by an operation that saw none when it looked (`CommentRuns.DateKeptExactly`,
  `CommentRuns.WrittenAgain`; `CommentRuns.UndatedReply`, `CommentRuns.OverlappingReplies`).
- `src/db/cms_comments.c:1196` says only the newest email confirms. After a renewal another one still can exactly when the
  comment waits and either a link of it stored since the renewal's purge is still there or a verify on its way has found
  another (`CommentRuns.NewestOnlyConfirms`). Overlapping renewals, a submit still on its way and a verify that found the
  old link before the purge are such cases (`CommentRuns.OverlappingRenewals`, `CommentRuns.SubmitDuringRenewal`,
  `CommentRuns.OldLinkConfirms`).
- `src/db/cms_comments.h:19-20` says an unverified comment is deleted 24 h after it was sent. Its date is that exactly
  when no renewal moved it (`CommentRuns.ExpiresExactly`, `CommentRuns.ExtendedExample`).
- `src/web_server/connection.h:12-15` promises stripping however the header is split across writes. A write that fails
  at the socket after consuming header bytes has already moved the matcher (`HeaderStrip.RetryExactly`,
  `HeaderStrip.RetryExample`).

## Model

| member | source | states |
|---|---|---|
| `WmlString.VariablesKeepMeaning` | src/wap_gateway/wbxml.c:391-441 | for every NUL-free string and every variable environment, decoding the STR_I/EXT_I tokens and rendering them equals left-to-right substitution in the string itself, references being what the code takes for one; no byte is left undecoded |
| `WmlVariables.VariablesMean` | src/wap_gateway/wbxml.c:391-441 | with references defined by the grammar of section 10.3.1 of WML 1.1 and not by the code: the tokens of a string show, in every environment, what the grammar says it shows exactly when every conversion met in it is known, that is escape or unesc in lower case or noesc in any |
| `WmlVariables.AgreeExactly` | src/wap_gateway/wbxml.c:407-427 | at a dollar sign the code and the grammar find the same reference, or both none, exactly when a conversion there is a known one |
| `WmlVariables.ReferenceUnique` | src/wap_gateway/wbxml.c:391-396 | the grammar has at most one reference at a dollar sign |
| `WmlVariables.ReferenceIsRead` | src/wap_gateway/wbxml.c:407-427 | every reference of the grammar is read as one, with its name and its end |
| `WmlVariables.ConvExamples` | src/wap_gateway/wbxml.c:417-421 | two strings which some environment shows otherwise than the grammar says: `$(x:E)`, read as unconverted, and `$(x:zzz)`, read as a variable |
| `WmlString.EncodeDecodes` | src/wap_gateway/wbxml.c:397-441 | in front of any bytes, the tokens of a string decode to its reading followed by what those bytes decode to |
| `WmlString.EncodeStarts` | src/wap_gateway/wbxml.c:397-441 | no string, not even the empty one, is encoded as nothing: there is always a string token |
| `WmlString.PutStr` | src/wap_gateway/wbxml.c:397-441 | the loop appends exactly the token string that VariablesKeepMeaning is about |
| `WmlString.ScanRef` | src/wap_gateway/wbxml.c:400-433 | the loop body recognises a reference, its conversion and its end exactly as the reading says, malformed ones included |
| `WmlString.PutLiteral` | src/wap_gateway/wbxml.c:385-390 | appends one inline string, nothing for an empty run |
| `WmlTokens.ElementCodeNamed` | src/wap_gateway/wbxml.c:333-370 | the code of a name the compiler knows is the code of that name in the tag code page of WML 1.1 |
| `WmlTokens.AttrCodeNamed` | src/wap_gateway/wbxml.c:353-383 | the same for the attribute code page |
| `WmlTokens.ElementNameCoded` | src/wap_gateway/wbxml.c:333-343 | every name of the tag code page is compiled to its code |
| `WmlTokens.AttrNameCoded` | src/wap_gateway/wbxml.c:353-364 | every name of the attribute code page is compiled to its code |
| `WmlTokens.ElementKnownExactly` | src/wap_gateway/wbxml.c:333-370 | the compiler knows exactly the names of the tag code page |
| `WmlTokens.AttrKnownExactly` | src/wap_gateway/wbxml.c:353-383 | it knows exactly the names of the attribute code page |
| `WmlTokens.LinkAttrs` | src/wap_gateway/wbxml.c:459-464 | exactly the tokens of href and src mark the attributes whose site-relative values get the base |
| `Wbxml.CardDecodes` | src/wap_gateway/wbxml.c:443-500 | compilation preserves meaning: a WBXML decoder with the format's own bytes and tables, run on the bytes of a card, consumes them all and yields title, blocks and links with elements the format does not have replaced by their children, attributes it has no token for dropped, `method` values folded into tokens and href/src from the root of the site prefixed by the base |
| `Wbxml.NodeDecodes` | src/wap_gateway/wbxml.c:443-481 | the same for one node in front of any decodable content |
| `Wbxml.AllDecode` | src/wap_gateway/wbxml.c:443-500 | the same for a list of siblings |
| `Wbxml.ElementDecodes` | src/wap_gateway/wbxml.c:472-477 | an element's tag byte, attribute list and content decode to that element, and its first byte is never END nor a string token |
| `Wbxml.AttrsDecode` | src/wap_gateway/wbxml.c:452-476 | attribute lists decode to the kept attributes with their full values, in order |
| `Wbxml.AttrStart` | src/wap_gateway/wbxml.c:372-383 | no attribute token collides with END, STR_I or an EXT_I token |
| `Wbxml.CardIsDeck` | src/wap_gateway/wbxml.c:485-500 | compile_card's hand-written head and tail are the compiled form of a whole `<wml><card>` tree, filler space included |
| `Wbxml.SilentCompiles` | src/wap_gateway/wbxml.c:443-500 | a node compiles to no bytes exactly when it shows nothing, that is, when the format has neither its element nor any inside it, whatever the base |
| `Wbxml.CompileNode` | src/wap_gateway/wbxml.c:443-481 | the recursive method appends the compiled form that NodeDecodes reads back |
| `Wbxml.CompileKids` | src/wap_gateway/wbxml.c:470-470 | the loop over children appends their compiled forms in order |
| `Wbxml.PutAttrs` | src/wap_gateway/wbxml.c:452-469 | the attribute loop appends the tokens that AttrsDecode reads back |
| `Wbxml.PutAttr` | src/wap_gateway/wbxml.c:453-469 | one round of it: dropped, folded, prefixed or plain |
| `Wbxml.PutElement` | src/wap_gateway/wbxml.c:472-480 | the tag byte announces attributes and content exactly when there are some, and each list is closed |
| `Wbxml.WriteCard` | src/wap_gateway/wbxml.c:485-500 | writes the card that CardDecodes reads back, with a filler space exactly when nothing else was written |
| `Wbxml.PutCardHead` | src/wap_gateway/wbxml.c:487-493 | writes the header, the two start tags and the card attributes |
| `SeamText.WordsCut` | src/wap_gateway/wbxml.c:570-578 | cutting a text between words cuts its word list there: nothing is split, lost or doubled |
| `SeamText.CutsBetweenWords` | src/wap_gateway/wbxml.c:570-578 | every cut offered by word_cuts is between words |
| `SeamText.SkipKeepsWords` | src/wap_gateway/wbxml.c:613-622 | skipping leading separators drops only words made of bars, commas, semicolons, colons and hyphens and keeps all the others in order |
| `SeamText.FindCuts` | src/wap_gateway/wbxml.c:572-578 | the loop lists the cuts that CutsBetweenWords is about, up to the table size |
| `SeamText.TrimDanglingTail` | src/wap_gateway/wbxml.c:600-612 | the loop finds how much of a text can end a line; the rest goes to the next page |
| `SeamText.SkipLeadingSeparators` | src/wap_gateway/wbxml.c:613-622 | the loop returns the rest that SkipKeepsWords is about |
| `Paginator.RestIsLighter` | src/wap_gateway/wbxml.c:624-685 | what a tidied seam leaves for the next page weighs (children plus text bytes) strictly less than the block, also when the seam moved back one child |
| `Paginator.SplitIsLighter` | src/wap_gateway/wbxml.c:624-685 | every successful split leaves a strictly lighter rest: the measure of the packing loop |
| `Paginator.TextCutFits` | src/wap_gateway/wbxml.c:640-653 | the words kept by the binary search do fit on the page |
| `Paginator.FindTextCut` | src/wap_gateway/wbxml.c:640-653 | the binary search over word cuts as a loop, equal to the cut that TextCutFits and TextCutLargest are about |
| `Paginator.FindSeam` | src/wap_gateway/wbxml.c:632-671 | the child-by-child probe, the word search and the tidying give the seam that SplitLargest is about |
| `Paginator.SplitBlock` | src/wap_gateway/wbxml.c:624-685 | split_to_fit refuses or splits exactly as specified, `*head` and `*rest` included |
| `Paginator.PackPages` | src/wap_gateway/wbxml.c:848-885 | the packing loop terminates on every deck and makes the page list that PagesConserve and PackFits are about |
| `Conservation.DeckConserves` | src/wap_gateway/wbxml.c:783-885 | for every deck, address, page and packet size the pages of paged_build are the blocks of the card in order, and every element child and every word but bare separators at seams is on exactly one page |
| `Conservation.PagesConserve` | src/wap_gateway/wbxml.c:829-885 | for every deck, title, base and limit the pages are the blocks in order, each whole or cut in two at a page end with the same tag and attributes |
| `Conservation.NothingIsLost` | src/wap_gateway/wbxml.c:559-685 | joined in order, the pages show the same children and words as the card |
| `Conservation.ConservesKept` | src/wap_gateway/wbxml.c:829-885 | any page list that conserves the blocks in that sense shows every kept item once and in order |
| `Conservation.SeamCuts` | src/wap_gateway/wbxml.c:656-685 | a seam divides what a block shows into head and rest; only bare separator words between them vanish |
| `Conservation.PackConserves` | src/wap_gateway/wbxml.c:848-885 | the packing loop, from any state of its queue and open page, conserves both |
| `PageNav.PageReadsBack` | src/wap_gateway/wbxml.c:691-718 | the page number set is the one read back, for every number that fits, exactly when no second page parameter is left in the URI |
| `PageNav.SetTwice` | src/wap_gateway/wbxml.c:697-718 | setting a page over another equals setting it at once exactly when the stripped URI does not end in a separator |
| `PageNav.SetAgain` | src/wap_gateway/wbxml.c:697-718 | over a settled URI any page, 0 included, can be set again |
| `PageNav.WalkVisits` | src/wap_gateway/wbxml.c:887-895 | following Next from page 0 reaches page n after n steps, reads n there, and Prev is the inverse of Next |
| `PageUri.OrderlySettles` | src/wap_gateway/wbxml.c:697-718 | from the URI itself: without fragment, empty parameter or trailing separator, and with at most one page parameter, a number, what is left without the page has none and does not end in a separator |
| `PageUri.OrderlyNavigates` | src/wap_gateway/wbxml.c:691-718 | for every such URI with room: the page set is the page read, and setting over another page equals setting at once |
| `PageUri.OrderlyWalk` | src/wap_gateway/wbxml.c:887-895 | for every such URI with room: Next n times from page 0 is page n, and Prev goes back |
| `PageUri.SecondParamExample` | src/wap_gateway/wbxml.c:703-714 | `/a?__page=1&__page=2`: page 3 is set and page 2 is read |
| `PageUri.OpenQueryExample` | src/wap_gateway/wbxml.c:712-713 | `/a?`: setting page 2 over page 1 differs from setting it at once |
| `PageNav.LastParamStrips` | src/wap_gateway/wbxml.c:703-714 | a trailing all-digit page parameter is removed with its separator and nothing else |
| `PageNav.InnerParamStrips` | src/wap_gateway/wbxml.c:703-714 | one followed by other parameters is removed and the others keep their separator |
| `PageNav.SplicedWritten` | src/wap_gateway/wbxml.c:706-711 | cutting a parameter out leaves what stood before it and what follows its separator, for a parameter at the end and for one inside |
| `PageNav.SetPageParam` | src/wap_gateway/wbxml.c:697-718 | the code computes the URI those results are about, truncation to the buffer included |
| `PageNav.RemoveParam` | src/wap_gateway/wbxml.c:703-714 | strips the first page parameter, its digits and one separator |
| `PageNav.SkipDigits` | src/wap_gateway/wbxml.c:707-708 | finds the end of the digits |
| `PageNav.FindParam` | src/wap_gateway/wbxml.c:691-705 | finds the first page parameter that follows `?` or `&` |
| `PageNav.ReadPageParam` | src/wap_gateway/wbxml.c:691-695 | reads the number as atoi does, 0 without a parameter |
| `Measure.EncodePrefix` | src/wap_gateway/wbxml.c:397-441 | a `$`-free base in front of a value adds exactly its own length to the encoded value |
| `Measure.PlainLength` | src/wap_gateway/wbxml.c:397-441 | a `$`-free string takes its length plus two bytes |
| `Measure.CompileAllShorter` | src/wap_gateway/wbxml.c:443-481 | a base that is no longer never makes a compiled list longer |
| `Measure.CardLength` | src/wap_gateway/wbxml.c:485-509 | the size of a card is its head plus its body, whatever title and links |
| `Measure.BodyWithNav` | src/wap_gateway/wbxml.c:494-509 | the three-byte filler argument: links added to a body cost at most their own bytes |
| `Deck.PagedBuild` | src/wap_gateway/wbxml.c:783-901 | the code builds the pages, clamped page number, title and links that the page results are about |
| `Deck.MakeFrame` | src/wap_gateway/wbxml.c:791-827 | the measuring title, base and limit, with the room kept for the worst links |
| `Deck.MakeNav` | src/wap_gateway/wbxml.c:887-895 | Prev except on the first page, Next except on the last |
| `PageBound.PageWithinPacket` | src/wap_gateway/wbxml.c:783-923 | the page bound: with at most 99 pages, room beyond the link reserve, a plain URI and `$`-free text, the final compiled page is at most `pageBytes` long unless it is one block with no cut: nothing of its first child fits a page, or that child is only separators and brackets and nothing of the second fits beside it |
| `PageBound.PackFits` | src/wap_gateway/wbxml.c:848-885 | every page packed is within the limit or is one such block |
| `PageBound.RefusedExactly` | src/wap_gateway/wbxml.c:628-672 | a block too large for a page is refused by split_to_fit exactly when it has no cut in that sense |
| `PageBound.CutFoundExactly` | src/wap_gateway/wbxml.c:640-653 | the binary search finds a cut exactly when the first word fits |
| `PageBound.LeadingBarRefuses` | src/wap_gateway/wbxml.c:656-672 | a block that opens with a bare separator beside which the next child does not fit is sent whole, however small its later children are |
| `Delivery.LeadingBarExample` | src/wap_gateway/wbxml.c:656-672 | such blocks: a bar, an element that alone fits a page of 51 bytes, and any number of line breaks |
| `PageBound.FinalSize` | src/wap_gateway/wbxml.c:804-827 | a page within the limit stays within the packet with its real title, links and base |
| `PageFill.TextCutLargest` | src/wap_gateway/wbxml.c:640-653 | no word end among the first 4096 that fits comes after the cut the search finds |
| `PageFill.CutsComplete` | src/wap_gateway/wbxml.c:570-578 | every end of a word is offered as a cut, up to the size of the table |
| `PageFill.KidsLargest` | src/wap_gateway/wbxml.c:632-638 | as many whole children as fit are kept: no head with more of them fits |
| `PageFill.SplitLargest` | src/wap_gateway/wbxml.c:624-685 | a block that does not fit whole is cut at or after every clean cut whose head fits, a clean cut being one after a word that can end a line or between children; it is refused only if no such head fits |
| `PageFill.PackFull` | src/wap_gateway/wbxml.c:848-885 | from any queue and open page: a page is closed only when its next block does not fit whole and either no head of it that fits is worth a split or the head up to the last cut that fits has come |
| `PageFill.DeckFull` | src/wap_gateway/wbxml.c:829-885 | for every deck with `$`-free title and text: the card is one page when it fits the packet, and otherwise every page is full in that sense |
| `PageFill.RoomIs` | src/wap_gateway/wbxml.c:791-827 | the room of a page is the packet less the two longest links, never less than 128 bytes, measured with the longest title and the longer base |
| `PageFill.TrimKeeps` | src/wap_gateway/wbxml.c:600-612 | trimming stops at or after every word that can end a line |
| `PageFill.TrimEndsLine` | src/wap_gateway/wbxml.c:600-612 | what is kept of a text ends in such a word |
| `PageFill.SkipOpens` | src/wap_gateway/wbxml.c:613-622 | the rest of a text opens with a word that is more than a separator |
| `PageHeads.CardIsFirst` | src/wap_gateway/wbxml.c:530-537 | the card shown is the first element named card in the order of the source |
| `PageHeads.BlocksAre` | src/wap_gateway/wbxml.c:831-832 | its blocks are its element children, all of them and in order |
| `PageHeads.TitleKept` | src/wap_gateway/wbxml.c:746-755 | a title keeps as many of its first 30 bytes as make whole characters |
| `PageHeads.TitleNumbers` | src/wap_gateway/wbxml.c:896-899 | a page of several says which one it is and how many there are, in that order |
| `PageHeads.LinksAre` | src/wap_gateway/wbxml.c:887-895 | `<< Prev` leads to the page before and `Next >>` to the page after, each where there is one |
| `PageHeads.NearestPage` | src/wap_gateway/wbxml.c:887-887 | a page that does not exist is answered with the nearest one |
| `PageHeads.AddressParts` | src/wap_gateway/wbxml.c:734-744 | an address is its scheme and host followed by its path |
| `PageBound.NavCostIs` | src/wap_gateway/wbxml.c:819-826 | the reserve is exactly the compiled size of the two worst links |
| `PageBound.LinkShift` | src/wap_gateway/wbxml.c:697-718 | setting the page of a plain URI is setting it on the path and putting the host in front |
| `Delivery.SamePagesExactly` | src/wap_gateway/wbxml.c:791-827 | for every absolute URI with a `$`-free `scheme://host`: gateway and HTTP cut every deck alike exactly when that base is no longer than the reference one and both reserve the same room for their links |
| `Delivery.SamePagesGuard` | src/wap_gateway/wbxml.c:791-818 | for every such URI with a site-relative path without fragment, page or variables: both delivery paths cut every deck alike exactly when the base is no longer than the reference one and the path has no `://` in it |
| `Delivery.OrdinaryPathsAgree` | src/wap_gateway/wbxml.c:809-827 | a path without `://` in it is cut alike on both delivery paths |
| `Delivery.EmbeddedUriExample` | src/wap_gateway/wbxml.c:809-818 | two addresses that are cut differently: `http://h/a?u=x://y/b` and `http://h/a?u=x://y` |
| `Delivery.LongBaseDiffers` | src/wap_gateway/wbxml.c:791-798 | for every URI whose `$`-free base is longer than the reference one some deck is cut differently, since only the gateway measures with it |
| `Delivery.LongHostExample` | src/wap_gateway/wbxml.c:791-798 | `http://a.rather.long.host.name` with any path: some deck is cut differently |
| `Delivery.LinksKeepPages` | src/wap_gateway/wbxml.c:903-923 | following a Prev or Next link never moves a page break |
| `Browsing.EveryPageIsShown` | src/wap_gateway/wbxml.c:887-895 | following the last link of each page from the first address shows page n of the same page list after n steps, for every page there is, and the first link leads back |
| `Sending.PageSentDecodes` | src/wap_gateway/wbxml.c:903-923 | for every NUL-free source and address, whichever page is asked for, the bytes sent decode to its title, blocks and links with nothing left over, and all pages together show what the card shows |
| `Sending.ParseClean` | src/wap_gateway/wbxml.c:141-316 | every NUL-free text is read as a tree without NULs, numeric entities included |
| `Sending.PackClean` | src/wap_gateway/wbxml.c:848-885 | cutting and packing keep it so |
| `HttpPages.HttpPageReads` | src/wap_gateway/wbxml.c:960-989 | for every source with a tidy tree that leaves room for the elements around a page, every address, page and packet size: the text wml_paginate prints parses to one card with the title, blocks and links of that page |
| `HttpPages.PageReads` | src/wap_gateway/wbxml.c:971-983 | prolog, card and any blocks in normal form parse back to one card with that title and those blocks |
| `HttpPages.PutPage` | src/wap_gateway/wbxml.c:971-983 | the code writes the text that PageReads reads back |
| `HttpPages.PutLines` | src/wap_gateway/wbxml.c:981-982 | each node printed on its own line |
| `HttpPages.PackNormal` | src/wap_gateway/wbxml.c:848-885 | every page packed from blocks in normal form is in normal form |
| `HttpPages.SplitNormal` | src/wap_gateway/wbxml.c:624-685 | a block in normal form is cut into halves in normal form: no seam leaves two texts together or a lone space |
| `WmlPrinter.RoundTrip` | src/wap_gateway/wbxml.c:216-316 | for every tree in normal form the parser returns that tree from the printed text |
| `WmlForm.ParseNormalExactly` | src/wap_gateway/wbxml.c:216-316 | the tree of a source is in normal form exactly when no text follows a text and no lone space comes last among siblings, and then its printed text parses back to it |
| `WmlForm.ParseLoose` | src/wap_gateway/wbxml.c:216-316 | every input, well formed or not, parses to a tree with valid names and attributes, nothing inside void elements, no more levels than the stack has, and texts collapsed |
| `WmlPrinter.NodeReads` | src/wap_gateway/wbxml.c:947-958 | the same for one element in front of any text and inside any open elements |
| `WmlPrinter.KidsRead` | src/wap_gateway/wbxml.c:947-958 | the same for the children an open element still lacks |
| `WmlPrinter.EscapeDecodes` | src/wap_gateway/wbxml.c:927-937 | escaping is undone by entity decoding, for every string |
| `WmlPrinter.AttrsScan` | src/wap_gateway/wbxml.c:939-945 | printed attributes are scanned back with the same names and values |
| `WmlPrinter.PutEscaped` | src/wap_gateway/wbxml.c:927-937 | the loop writes the text that EscapeDecodes reads back |
| `WmlPrinter.PrintNode` | src/wap_gateway/wbxml.c:947-958 | the recursive method writes the text that NodeReads reads back |
| `WmlPrinter.PrintNodes` | src/wap_gateway/wbxml.c:947-958 | the loop over children |
| `WmlPrinter.PutPrintedAttrs` | src/wap_gateway/wbxml.c:939-952 | the loop over attributes |
| `WmlPrinter.PutPrintedAttr` | src/wap_gateway/wbxml.c:939-945 | one attribute, quoted and escaped |
| `WmlParser.ParseWml` | src/wap_gateway/wbxml.c:216-316 | the parser loop over its explicit stack computes the tree that RoundTrip is about, for every input, well formed or not |
| `WmlParser.RunStep` | src/wap_gateway/wbxml.c:224-314 | one turn: comment, declaration, end tag, start tag or text |
| `WmlParser.FindOpen` | src/wap_gateway/wbxml.c:252-264 | finds the innermost open element with the name, or none |
| `WmlParser.ScanTag` | src/wap_gateway/wbxml.c:275-310 | the attribute loop, with its tolerance for missing quotes and values |
| `WmlParser.TextOf` | src/wap_gateway/wbxml.c:172-190 | the code gives the text that TextMeans is about |
| `WmlParser.Collapsed` | src/wap_gateway/wbxml.c:176-189 | every run of blanks becomes one space, at the ends too |
| `WmlParser.PutDecoded` | src/wap_gateway/wbxml.c:141-168 | the loop writes the text that EntityDecodes and OtherCopied are about |
| `WmlText.EntityDecodes` | src/wap_gateway/wbxml.c:141-168 | an entity is replaced by its character: one of six names, or the value of a decimal or hexadecimal numeral as strtoul takes one, its `;` among the first twelve characters |
| `WmlText.OtherCopied` | src/wap_gateway/wbxml.c:141-168 | any other character is copied, an ampersand that opens no such entity included |
| `WmlText.StrtoulReads` | src/wap_gateway/wbxml.c:157-163 | the number read is the positional value of the digits behind blanks, a sign and a `0x`, and nothing else is a number |
| `WmlText.EveryCodePoint` | src/wap_gateway/wbxml.c:157-164 | every code point written in decimal, or in hexadecimal with either x and digits of either case, is read as it |
| `WmlText.Utf8Reads` | src/wap_gateway/wbxml.c:33-49 | the bytes written for a code point are read back as it by section 3 of RFC 3629 |
| `WmlText.TextMeans` | src/wap_gateway/wbxml.c:172-190 | text keeps its words with single spaces between them, and one at an end exactly where the source has white space there |
| `WmlTolerance.CommentSkipped` | src/wap_gateway/wbxml.c:242-246 | a comment is skipped up to its first `-->` |
| `WmlTolerance.OpenComment` | src/wap_gateway/wbxml.c:242-246 | one never closed takes all that follows |
| `WmlTolerance.DeclarationSkipped` | src/wap_gateway/wbxml.c:247-251 | a declaration or processing instruction is skipped up to its first `>` |
| `WmlTolerance.EndTagMeans` | src/wap_gateway/wbxml.c:252-264 | an end tag ends the innermost open element of its name, in any case, with all that is open inside it; one that matches nothing is ignored |
| `WmlTolerance.AttributeReads` | src/wap_gateway/wbxml.c:281-306 | an attribute reads the same in either quotes or bare, with any spaces around its `=` |
| `WmlTolerance.BareAttribute` | src/wap_gateway/wbxml.c:307-309 | an attribute without a value has its own name for one |
| `WmlTolerance.StartTagMeans` | src/wap_gateway/wbxml.c:266-313 | br, img, input and meta stand by themselves; any other element is open until its end, up to 63 of them |
| `Highlight.HighlightLosesNothing` | src/utils/code_highlight.c:515-552 | for every source and every language, a strict reader of the output gets back the source without carriage returns and trailing newlines, every character in the class of its token, one line span a line, no token span nested or crossing a newline |
| `Highlight.LexCodeTiles` | src/utils/code_highlight.c:342-467 | the code scanner always advances and its tokens tile the source |
| `Highlight.LexHtmlTiles` | src/utils/code_highlight.c:469-508 | so do those of the HTML scanner |
| `Highlight.RenderedReads` | src/utils/code_highlight.c:231-264 | any tiling with valid classes reads back as the source it tiles, each stretch in its class |
| `TokenClasses.CodeClasses` | src/utils/code_highlight.c:342-467 | in every language of the table, token after token: a comment exactly where a marker of the language opens one, up to its first close or the newline; then directives and markers; strings from a quote to the first unescaped same quote, or the newline; variables; numbers; a word is a keyword exactly when it is in the language's list, a function exactly when it is not and `(` follows, a property inside a rule before a colon; each as long as it can be |
| `TokenClasses.NextIsTurn` | src/utils/code_highlight.c:346-463 | the same for one turn of the scanner, whatever the position and the depth of braces |
| `TokenClasses.StringStops` | src/utils/code_highlight.c:325-340 | a string ends at the first quote or newline behind an even number of backslashes |
| `TokenClasses.HtmlClasses` | src/utils/code_highlight.c:469-508 | HTML is cut into comments up to `-->`, tag names, attribute names, quoted values and tag ends, each exactly where one opens, and text |
| `Highlight.CrGoes` | src/utils/code_highlight.c:518-526 | carriage returns are dropped one by one and nothing else is |
| `Highlight.EndGoes` | src/utils/code_highlight.c:527-527 | so are all newlines at the end |
| `Highlight.HighlightHtml` | src/utils/code_highlight.c:515-552 | the code writes that output, and so loses nothing |
| `Highlight.ScanCode` | src/utils/code_highlight.c:342-467 | the code writes the tokens that CodeClasses is about, each in its class |
| `Highlight.ScanHtml` | src/utils/code_highlight.c:469-508 | the code writes the tokens that HtmlClasses is about, each in its class |
| `Highlight.PutPieces` | src/utils/code_highlight.c:268-271 | plain text waits and is flushed before the next token, in order |
| `Highlight.Cleaned` | src/utils/code_highlight.c:521-528 | carriage returns and trailing newlines are dropped |
| `Highlight.PutLines` | src/utils/code_highlight.c:536-540 | the scanner chosen by language writes the whole tiling |
| `Markup.EmittedReads` | src/utils/code_highlight.c:231-264 | whatever is emitted reads back as that text in that class, newlines outside every token |
| `Markup.ReadAppend` | src/utils/code_highlight.c:151-264 | the strict reader reads concatenated output piece by piece |
| `Markup.Out.Emit` | src/utils/code_highlight.c:231-264 | closes and reopens token and line at each newline, and counts the lines |
| `Markup.Out.PutSegment` | src/utils/code_highlight.c:198-225 | one token span around escaped text, none for plain text |
| `Markup.Out.PutEscaped` | src/utils/code_highlight.c:236-254 | the run-by-run loop writes the escaped text |
| `Markup.Out.NewLine` | src/utils/code_highlight.c:174-196 | ends the line span and starts the next |
| `Languages.AllWellFormed` | src/utils/code_highlight.c:10-119 | every language of the table has usable comment and preprocessor markers |
| `Gif.EncodeGif` | src/utils/captcha.c:271-309 | GIF round trip: for every gray buffer a standard reader gets the size, the palette and `gray[i] >> 4` in order, and the writer stays within the capacity computed beforehand |
| `Gif.CodesDecode` | src/utils/captcha.c:294-298 | a standard LZW decoder reads the codes back as the pixels and never widens the code size |
| `Gif.BlocksUnpack` | src/utils/captcha.c:251-259 | unpacking the sub-blocks gives the data back |
| `Gif.FileReads` | src/utils/captcha.c:271-309 | header, blocks and trailer read back as the image |
| `Gif.GifWriter.PutCode` | src/utils/captcha.c:261-269 | five bits, lowest first, follow all the bits written before |
| `Gif.GifWriter.PutByte` | src/utils/captcha.c:251-259 | bytes collect in a block that goes out whenever it is full |
| `Gif.PutImage` | src/utils/captcha.c:294-298 | clear codes and pixels in the order the decoder needs |
| `Gif.Finish` | src/utils/captcha.c:299-306 | the last bits are padded to a byte, the last block and the trailer written |
| `Gif.PadBits` | src/utils/captcha.c:299-299 | at most seven zero bits are added |
| `Crc32.LookUp` | src/utils/captcha.c:150-162 | one table look-up does the work of eight bits of the definition |
| `Crc32.StepsLinear` | src/utils/captcha.c:150-162 | the register step is linear over exclusive or |
| `Crc32.CrcTable.Fill` | src/utils/captcha.c:147-158 | each table entry is eight register steps of its index |
| `Crc32.CrcTable.Crc32Of` | src/utils/captcha.c:150-162 | the table-driven CRC equals the bit-by-bit one of section 3.4 of RFC 2083 for every buffer, and continues one |
| `Png.PngReads` | src/utils/captcha.c:179-229 | a reader that checks signature, chunk lengths, CRCs, stored blocks, Adler-32 and row filters gets the image back |
| `Png.StoredInflates` | src/utils/captcha.c:195-207 | inflating the stored blocks (section 3.2.4 of RFC 1951) returns the raw rows and consumes no more |
| `Png.ZlibReads` | src/utils/captcha.c:195-210 | the zlib stream passes its header check and Adler-32 |
| `Png.ChunkReads` | src/utils/captcha.c:169-175 | a chunk reads back with its type, data and CRC, in front of anything |
| `Png.EncodePng` | src/utils/captcha.c:179-229 | the code writes that file within the size it allocates |
| `Png.PutZlib` | src/utils/captcha.c:188-210 | the block loop and the running sums give the specified stream |
| `Png.PutRows` | src/utils/captcha.c:180-186 | each row behind a zero filter byte |
| `Png.AdlerOf` | src/utils/captcha.c:197-208 | the running sums are those of RFC 1950 |
| `Png.PutChunk` | src/utils/captcha.c:169-175 | length, type, data and CRC |
| `Markdown.DocumentNests` | src/utils/markdown_lite.c:160-215 | for every text: the HTML is nothing but the eleven tags and escaped characters, well nested, items only in lists, no element inside its own kind and so no link in a link, and every link is an http(s) address or the base with a scheme-free relative one behind it |
| `Markdown.InlineNests` | src/utils/markdown_lite.c:59-122 | inline text closes what it opens wherever it may stand: a link text has no `](`, strong text no `**`, emphasised text no `*` |
| `Markdown.InlineSafe` | src/utils/markdown_lite.c:59-83 | every link made is an http(s) address or a scheme-free relative one behind the base |
| `Markdown.InlineThins` | src/utils/markdown_lite.c:85-122 | rendering invents no text: what shows is the source with characters left out |
| `Markdown.LineSound` | src/utils/markdown_lite.c:166-209 | every line keeps the renderer sound: output well nested inside the open list, items collected only there, paragraphs only outside |
| `MarkdownBlocks.DocumentIs` | src/utils/markdown_lite.c:160-215 | for every text: the document is its headings, its paragraphs, each a run of plain lines, and its lists, each item with the indented lines below it; every line of a block is in its element, in order and joined by single spaces |
| `MarkdownBlocks.KindMeans` | src/utils/markdown_lite.c:167-178 | a line is a heading, an item, blank or plain from its characters alone, blanks at the end not counting |
| `MarkdownBlocks.LinesJoin` | src/utils/markdown_lite.c:166-169 | the lines are the source cut at its newlines |
| `MarkdownBlocks.HeadingLevel` | src/utils/markdown_lite.c:186-195 | one hash is an h3, and so on down to h6 |
| `MarkdownBlocks.InlineMeans` | src/utils/markdown_lite.c:85-122 | inline text is, one after the other, code spans, strong and emphasised text, links and characters, each exactly where its marks stand |
| `MarkdownBlocks.PieceMeans` | src/utils/markdown_lite.c:59-122 | what stands at one place: up to the next backquote, pair or asterisk with something inside, or a link whose address is of the web or below the base |
| `MarkdownBlocks.ElementIs` | src/utils/markdown_lite.c:134-143 | a block is its inline text between its tags |
| `Markdown.MarkdownToHtml` | src/utils/markdown_lite.c:160-215 | the code writes the text of the specified tokens, hence well-nested HTML with safe links only |
| `Markdown.Renderer.InlineHtml` | src/utils/markdown_lite.c:85-122 | the loop writes the specified tokens and terminates |
| `Markdown.Renderer.PutPiece` | src/utils/markdown_lite.c:88-120 | one turn: code, strong, emphasis, link or one escaped character |
| `Markdown.Renderer.LinkAt` | src/utils/markdown_lite.c:59-83 | writes the link or its bare text and returns its length, 0 without one |
| `Markdown.Renderer.PutAnchor` | src/utils/markdown_lite.c:72-76 | the start tag with its escaped address |
| `Markdown.Renderer.PutMarked` | src/utils/markdown_lite.c:97-114 | strong or emphasised text between its tags |
| `Markdown.Renderer.PutCode` | src/utils/markdown_lite.c:88-96 | a code span, its text escaped and not read |
| `Markdown.Renderer.PutEscaped` | src/utils/markdown_lite.c:29-40 | the five special characters as entities |
| `Markdown.Renderer.PutElement` | src/utils/markdown_lite.c:134-143 | a block element around its inline text |
| `Markdown.Renderer.FlushBlock` | src/utils/markdown_lite.c:134-147 | the collected block goes out in its element and the collection is empty |
| `Markdown.Renderer.CloseList` | src/utils/markdown_lite.c:149-153 | the block and an open list are closed |
| `Markdown.Renderer.Collect` | src/utils/markdown_lite.c:155-158 | lines of a block are joined by one space |
| `Markdown.Renderer.TakeLine` | src/utils/markdown_lite.c:179-207 | blank line, heading, item, continued item or paragraph |
| `Markdown.Renderer.TakeRawLine` | src/utils/markdown_lite.c:167-175 | trailing blanks and indentation are taken off first |
| `Markdown.TrimEnd` | src/utils/markdown_lite.c:170-170 | finds the end of the line without trailing blanks |
| `Markdown.CountRun` | src/utils/markdown_lite.c:172-178 | counts leading spaces or hashes |
| `HtmlTags.TextReads` | src/utils/markdown_lite.c:5-122 | the strict reader recovers every sequence of tokens from its text, link addresses included |
| `Comments.CommentSafety` | src/db/cms_comments.c:485-650 | after every interleaving of database steps: expires_at exactly on unverified comments; at most one confirmation of a comment, by a token issued for it; a pending comment was confirmed or its author had proved the address; a verified author has a confirmed comment |
| `Comments.StepOnward` | src/db/cms_comments.c:485-1209 | every single step: a status never falls, a removed comment never returns, removal is by deletion or by expiry while unverified, and a comment turns pending only through its own token or on arrival from a remembered author whose address a token had proved |
| `Comments.RankNeverFalls` | src/db/cms_comments.c:961-983 | over every run the status rank unverified < pending < approved/rejected never falls |
| `Comments.NeverExpires` | src/db/cms_comments.c:232-233 | over every run without its deletion a confirmed or moderated comment stays stored |
| `Comments.DoKeeps` | src/db/cms_comments.c:485-1209 | every step keeps the invariant behind CommentSafety |
| `Comments.RunKeeps` | src/db/cms_comments.c:485-1209 | so does every run |
| `CommentSteps.DocStep` | src/db/cms_comments.c:485-1209 | every step, on every comment: whether it is stored, its status, moderator, verification, expiry and reply, each from what the step asks |
| `CommentSteps.LinkStep` | src/db/cms_comments.c:528-1208 | every step, on every link: stored by a submit or a renewal, gone when used, replaced or out of date, unchanged otherwise |
| `CommentSteps.UserStep` | src/db/cms_comments.c:416-631 | every step, on every user: known, verified and blocked |
| `CommentSteps.LastDecides` | src/db/cms_comments.c:961-983 | after every run the status of a stored comment is the one the last step that gave it a status asked for |
| `CommentSteps.VerdictExactly` | src/db/cms_comments.c:961-1059 | a comment is rejected exactly when the last such step was a moderator's rejection, and approved exactly when it was a moderator's approval or that of a reply |
| `CommentRuns.DateStep` | src/db/cms_comments.c:1009-1073 | one step keeps the first date of a reply exactly when it neither deletes the reply nor writes it for an operation that saw none when it looked (with another time) |
| `CommentRuns.DateKeptExactly` | src/db/cms_comments.c:1009-1073 | over every run in which the comment stays stored the first date is kept throughout exactly when no step of it disturbs it in that sense |
| `CommentRuns.WrittenAgain` | src/db/cms_comments.c:1014-1043 | whatever comes between the look and the write: the reply then has the date of the one there if one was there at the look, none if that one is gone, a new one otherwise; a reply that is there keeps its date exactly when one was there at the look |
| `CommentRuns.KeepsFirstDate` | src/db/cms_comments.c:1030-1034 | written again with nothing disturbing it in between, a reply keeps its first date |
| `CommentRuns.UndatedReply` | src/db/cms_comments.c:1061-1073 | a reply deleted between the look and the write comes back undated, whatever the comment |
| `CommentRuns.OverlappingReplies` | src/db/cms_comments.c:1035-1037 | two first replies that overlap: the date of the first is gone |
| `CommentRuns.NewestOnlyExactly` | src/db/cms_comments.c:1195-1208 | another link of the comment is stored after a renewal exactly when some step between its purge and its insert stored one that is still there |
| `CommentRuns.NewestOnlyConfirms` | src/db/cms_comments.c:1195-1208 | the promise itself: after a renewal another link than the new one can still confirm exactly when the comment waits and a link stored since the purge is still there or a verify on its way has found another |
| `CommentRuns.ConfirmsExactly` | src/db/cms_comments.c:575-608 | in every reachable state: some later run that stores no link of a comment confirms it with another link than the given one, exactly when the comment waits and another link of it is stored or was found by a verify on its way |
| `CommentRuns.OldLinkConfirms` | src/db/cms_comments.c:575-608 | a verify that found the old link before the purge confirms with it after the renewal, though only the new link is stored |
| `CommentRuns.StoredSince` | src/db/cms_comments.c:528-541 | a link that is there after a run and was not before was stored by a step of the run |
| `CommentRuns.OverlappingRenewals` | src/db/cms_comments.c:1195-1208 | two overlapping renewals leave both links working, whatever the state they start from |
| `CommentRuns.SubmitDuringRenewal` | src/db/cms_comments.c:526-541 | so does a submit that stores its link only after a renewal has purged |
| `CommentRuns.ExpiresExactly` | src/db/cms_comments.c:513-513 | after every run an unverified comment expires 24 hours after it was last extended, and 24 hours after it was sent exactly when it was not extended (or last at the very time it was sent) |
| `CommentRuns.ExtendedExample` | src/db/cms_comments.c:1149-1152 | sent at 0 and extended at 5, a comment expires 24 hours after 5 |
| `CommentStore.Store.Verify` | src/db/cms_comments.c:575-650 | run without interruption it is its four steps, and succeeds exactly for a live token of an unverified comment |
| `CommentStore.Store.FindLiveToken` | src/db/cms_comments.c:545-567 | finds the comment of a token that has not expired; changes nothing else |
| `CommentStore.Store.TakeUnverified` | src/db/cms_comments.c:583-608 | the filtered find_and_modify is one confirmation step |
| `CommentStore.Store.DeleteToken` | src/db/cms_comments.c:613-620 | the token is spent either way |
| `CommentStore.Store.MarkEmail` | src/db/cms_comments.c:623-631 | the author counts as verified from then on |
| `CommentStore.Store.Submit` | src/db/cms_comments.c:485-541 | run without interruption it is its steps; name taken, failed, blocked, remembered, duplicate-token and ordinary outcomes |
| `CommentStore.Store.CommenterFor` | src/db/cms_comments.c:416-483 | at most two passes find the author or make a new unverified one, or end with the name taken or an error; trusted only when verified and remembered |
| `CommentStore.Store.Passes` | src/db/cms_comments.c:425-480 | the loop: a second pass exactly when the first met a write that may go better, and what it looked at last decides blocked and verified |
| `CommentStore.Store.StoreComment` | src/db/cms_comments.c:498-526 | stored pending when trusted, else unverified with a date to expire |
| `CommentStore.Store.StoreToken` | src/db/cms_comments.c:528-540 | a new hash is stored for the comment, a taken one refused |
| `CommentStore.Store.Moderate` | src/db/cms_comments.c:961-983 | the status asked for is stored with the moderator and the expiry date gone, nothing else changes; anything but approved and rejected is refused |
| `CommentStore.Store.SetReply` | src/db/cms_comments.c:1009-1059 | run without interruption a reply to a pending comment approves it and a rewritten reply keeps its first date |
| `CommentStore.Store.LookForReply` | src/db/cms_comments.c:1014-1024 | only pending and approved comments can be replied to |
| `CommentStore.Store.StoreReply` | src/db/cms_comments.c:1029-1043 | written only while the status is the one seen |
| `CommentStore.Store.ApproveAfterReply` | src/db/cms_comments.c:1050-1053 | a pending comment is approved |
| `CommentStore.Store.Renew` | src/db/cms_comments.c:1140-1219 | run without interruption the comment gets 24 more hours; with an address to write to, the new link is its only one, and without one its links stay |
| `CommentStore.Store.Extend` | src/db/cms_comments.c:1149-1157 | only an unverified comment is extended |
| `CommentStore.Store.Purge` | src/db/cms_comments.c:1195-1199 | the earlier links of that comment, and no others, stop working |
| `MailQueue.HandedAtMost` | src/utils/mailer.c:214-301 | over every run with crashes a message goes to the mail server at most five times plus once for each time it was found interrupted, which is at most the number of restarts |
| `MailQueue.FinalForGood` | src/utils/mailer.c:249-266 | sent and failed messages are never touched again, whatever happens |
| `MailQueue.NeverTooEarly` | src/utils/mailer.c:22-25 | in every reachable state a claim of a message whose attempt failed comes at least the delay of the table later, and the table is indexed in range |
| `MailQueue.WaitsUntilDue` | src/utils/mailer.c:218-230 | a queued message stays as it is until it is claimed, and only when due |
| `MailQueue.DoKeeps` | src/utils/mailer.c:218-301 | every step, crashes included, keeps the invariant behind these results |
| `MailQueue.RunKeeps` | src/utils/mailer.c:218-301 | so does every run |
| `MailSteps.MailStep` | src/utils/mailer.c:218-301 | every step, on every message: none is lost, and its status, attempts and next date are what the step makes them, with waits of 1, 5, 15 and 60 minutes |
| `MailSteps.FateExactly` | src/utils/mailer.c:249-266 | after every run a message is sent exactly when the mail server's acceptance of it was stored, and failed exactly when the refusal of its fifth or a later attempt was |
| `MailQueue.NextExists` | src/utils/mailer.c:222-224 | when some message is due there is one due the longest |
| `MailQueue.Mailer.Add` | src/utils/mailer.c:55-78 | queued with no attempts, due at once |
| `MailQueue.Mailer.ClaimNext` | src/utils/mailer.c:222-246 | claims the longest due message, and one exactly when one is due |
| `MailQueue.Mailer.SendNext` | src/utils/mailer.c:218-281 | one call is one claim, one hand-over and one outcome |
| `MailQueue.Mailer.RequeueInterrupted` | src/utils/mailer.c:283-301 | interrupted messages go back to the queue with their attempts kept |
| `Supervisor.SupervisorSafety` | src/extensions/extensions.c:217-463 | over every run of ticks, exits, rescans and switches: each live child is the process of exactly one entry, FAILED has none, RUNNING has one, and the registry stays within its 32 elements |
| `Supervisor.FailedUntilEnabled` | src/extensions/extensions.c:229-278 | a failed extension is not launched again by any run in which it is not enabled and its manifest is not found unusable |
| `Supervisor.UnusableOnceForgets` | src/extensions/extensions.c:329-340 | the manifest condition is needed: found unusable once and usable the next time, a failed extension is launched with nobody enabling it |
| `Supervisor.MissedOnceForgets` | src/extensions/extensions.c:306-350 | missed by one scan and found by the next, a failed extension is listed as new: disabled, not failed |
| `Supervisor.LeavesFailedExactly` | src/extensions/extensions.c:229-340 | a step that does not switch it keeps a failed enabled extension failed exactly when it is not a scan, or a scan that finds its directory and never an unusable manifest there |
| `Supervisor.FailedThroughoutExactly` | src/extensions/extensions.c:229-340 | over every run that does not switch it a failed enabled extension is failed throughout exactly when every scan finds its directory and never an unusable manifest there |
| `Supervisor.FailsOnlyFor` | src/extensions/extensions.c:242-275 | a tick makes an extension fail only when it could not be launched, or when five exits were noticed within 60 seconds |
| `Supervisor.OnlyTicksFail` | src/extensions/extensions.c:306-463 | no exit, rescan or switch makes an extension fail |
| `Supervisor.ReconciledOk` | src/extensions/extensions.c:229-278 | a tick changes the recorded process only when the old one is gone, to none or to the child just launched |
| `Supervisor.ExitedOk` | src/extensions/extensions.c:242-258 | the exits counted towards giving up all lie within one window of 60 seconds |
| `Supervisor.StopAskedOnce` | src/extensions/extensions.c:217-226 | while the process lives, later ticks keep the time of the first stop request; once it is gone the entry forgets it |
| `Supervisor.DoKeeps` | src/extensions/extensions.c:217-463 | every step keeps the invariant behind SupervisorSafety |
| `Supervisor.RunKeeps` | src/extensions/extensions.c:217-463 | so does every run |
| `SupervisorSteps.TickMeans` | src/extensions/extensions.c:217-278 | one tick: launched exactly when wanted without a process, not failed and past its pause; running exactly when wanted, alive and answering; an exit counted within its minute, the fifth one final, the others followed by a pause of as many seconds |
| `SupervisorSteps.RunningExactly` | src/extensions/extensions.c:229-278 | after every run an extension is listed as running exactly when its last tick found its process alive and its socket answering, with no unusable manifest found since |
| `SupervisorSteps.ScanMeans` | src/extensions/extensions.c:306-352 | a scan drops an entry exactly when its directory is missed and it has no process, and changes only its phase otherwise |
| `SupervisorSteps.ScanAdds` | src/extensions/extensions.c:311-341 | a new directory is listed switched off, and is while there is room |
| `SupervisorSteps.EnableRetries` | src/extensions/extensions.c:447-460 | enabling a failed extension gives it a new start: the next tick launches it |
| `Supervisor.Registry.Reconcile` | src/extensions/extensions.c:229-278 | the tick on the array changes the one entry as specified and launches exactly when it should |
| `Supervisor.Decide` | src/extensions/extensions.c:229-278 | the branches of the tick |
| `Supervisor.Registry.Scan` | src/extensions/extensions.c:306-352 | the three loops on the array give the scanned registry, compaction in place included |
| `Supervisor.Registry.Forget` | src/extensions/extensions.c:307-307 | no entry counts as seen |
| `Supervisor.Registry.List` | src/extensions/extensions.c:311-341 | an entry is found or added, while there is room, and its manifest read again |
| `Supervisor.Registry.Append` | src/extensions/extensions.c:319-326 | a new entry takes the next element |
| `Supervisor.Registry.Compact` | src/extensions/extensions.c:344-350 | drops exactly the entries not seen that have no process |
| `Supervisor.Registry.Find` | src/extensions/extensions.c:294-298 | the entry with the name, or none |
| `Supervisor.Registry.SetEnabled` | src/extensions/extensions.c:438-463 | refused, not stored, or switched with earlier failures forgotten; a rescan between its two locks may drop the entry and 0 is still returned |
| `Supervisor.Registry.CanSwitch` | src/extensions/extensions.c:439-443 | whether the entry is listed, present and usable |
| `Supervisor.Registry.SwitchNow` | src/extensions/extensions.c:447-461 | switches the entry if it is still there, and nothing otherwise |
| `HeaderStrip.CutsDoNotMatter` | src/web_server/connection.c:12-29 | for every split of a response into writes the bytes passed on are exactly those after its first CRLFCRLF |
| `HeaderStrip.MatcherRight` | src/web_server/connection.c:19-23 | the automaton finds the first blank line from wherever it stands |
| `HeaderStrip.MatchStep` | src/web_server/connection.c:20-21 | its state is the longest prefix of the blank line that the bytes seen end with |
| `HeaderStrip.RetryExactly` | src/web_server/connection.c:24-26 | after a write that failed at the socket, writing the same bytes again comes out right exactly when the header had ended before |
| `HeaderStrip.RetryExample` | src/web_server/connection.c:24-26 | one such write: the end of a header and one byte of body, sent again whole |
| `HeaderStrip.Connection.Write` | src/web_server/connection.c:12-29 | every write that makes progress, short ones included, keeps on the wire exactly the body of what was taken |
| `HeaderStrip.ScanHeader` | src/web_server/connection.c:18-23 | the loop consumes exactly the bytes that are still header |

## Left out

- PageBound.PageWithinPacket: at most 99 pages, a plain `scheme://host/path` URI shorter than the buffers, `$`-free text and URI and room beyond the link reserve are its hypotheses, as they are the code's own; other decks are cut and conserved as proved, but their final size is not bounded.
- PageNav.WalkVisits: for URIs within the buffers; the truncation of longer ones is modelled in `SetPage` but nothing is promised about it.
- PageNav.SetPageParam: a page parameter at the very start of the URI reads one character before the buffer in the code; the model treats that character as no separator.
- WmlPrinter.RoundTrip: for trees in the parser's normal form; `WmlForm.ParseNormalExactly` says which sources parse to one.
- PageFill.DeckFull: for `$`-free titles and texts, as a variable changes what a text weighs; a text of more than 4096 words is cut among its first 4096 only, as the code's table is.
- WmlText.EveryCodePoint: up to the twelve characters in which the code looks for the `;`; `WmlText.OtherCopied` says that a longer one is copied.
- SupervisorSteps.ScanMeans: for scans that do not find the same directory twice with different manifests.
- CommentStore.Store.Submit: the insert of the comment itself does not fail; an operation that ends early is the step `Abandon`.
- Comments.CommentSafety: starts from an empty database; the migration of the legacy `commenters` collection, rate limits and the captcha are not part of it, and whether a name is taken is given.
- Supervisor.SupervisorSafety: `extensions_stop`, which clears the process ids at shutdown, signals and their order, and the problem texts are not part of it; nor is the sort by name after a scan, which only orders the listing.
- Supervisor.Registry.Scan: reading the manifest files is the environment's; only whether each is usable enters.
- MailQueue.Mailer.Add: the checks of address, subject and configuration come before it and are not modelled.
- Delivery.SamePagesGuard: for paths without a page parameter or fragment; `Delivery.SamePagesExactly` covers every path, with the two reserves for its condition. Both are for addresses whose `scheme://host` has no `$`.
- HeaderStrip.Connection.Write: for writes that make progress; `RetryExactly` says what a failed one leaves behind.
- The highlighter's `<font>` and palette output for old browsers, and line-number padding: the same scanners with other markup.
- HttpPages.HttpPageReads: for sources whose tree is tidy (no text beside a text, as a comment between two leaves them, and no space left last) and has room for the two elements around a page; another page is printed as modelled, but what a browser reads from it is not stated.
- `wml_paginate`'s answer 0 for a deck of one page, which the server then sends as it is; `wbxml_message_card`, `latin1_to_utf8`.
- Captcha drawing, its random numbers, text art and WBMP, tokens and HMAC: pixels without a stated meaning and foreign cryptography.
- Sockets, TLS, `fork`, `exec`, curl, file reading, forwarding requests to extensions, the rest of the gateway and the router: input and output.
- MongoDB plumbing, the admin lists, notices, entries and the other `cms_*` collections: they only read and write documents.
- Page templates, themes, layouts, icon and User-Agent tables, languages of the site: data and string pasting.
- Allocation failures and logging.
