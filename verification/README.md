# A verified model of the mail core

This project models the parts of the mail application in which a promise is kept by several
functions together, and proves those promises for every input, every tree or every run.

| files | what they model |
|---|---|
| `MimeTree`, `MimeWalk`, `MimePaths`, `MimePlacement`, `MimeRouting`, `MimeAlternatives`, `MimeContents`, `MimeStructure`, `MimeShape`, `MimeValues` | the two walks over one MIME tree: the flat JMAP walk with its shared lists, its counter and its locally shut lists (section 4.1.4 of RFC 8621), and the recursive `bodyStructure` builder; `bodyValues` |
| `Text`, `Scanner`, `AddrSpec`, `Mailboxes`, `MailboxReading`, `UnclosedComments`, `CommentGrammar`, `ListGrammar` | printing a mailbox-list, and the scanners that find its separators and its unclosed comments (sections 3.2 and 3.4 of RFC 5322) |
| `MessageIds`, `References`, `ThreadingInputs`, `ThreadingLoop` | msg-id chains: reading, writing, validating, and the threading headers (section 3.6.4 of RFC 5322) |
| `BlobStore`, `BlobSafety`, `BlobRetention` | the content-addressed store as a step system of interleaved `create_blob` calls, references and garbage collection |
| `ThreadStats`, `ThreadRows` | the denormalised thread fields, the snippet cache and the read state |
| `Labels`, `LabelRows`, `Templates`, `TemplateRules` | two mutable tables, with the invariants every run keeps |
| `Deferrer` | nested batching scopes, exceptional exits and the chunked flush |
| `Preview`, `PreviewText` | the HTML text extractor with and without a character budget |
| `Filenames`, `FilenameRules` | the filename sanitizer |
| `Wrappers` | the optional values the others share |

Each imperative part of the source is a method or a class whose contract ties it to a
specification function; the theorems are about those functions. Pure parts are functions.
What a specification function computes is stated a second time without it, in terms of the inputs
alone: `MimePaths`, `MimeRouting` and `MimeShape` go by paths and fields of parts, `MailboxReading`,
`ListGrammar` and `ThreadingInputs` by characters and grammars, `BlobRetention`, `ThreadRows`,
`LabelRows` and `TemplateRules` by rows, `PreviewText` and `FilenameRules` by events and characters.
Strings are sequences of Unicode scalar values, and `Text.IsSpace` lists the characters
Python counts as white space.

Environment facts appear as explicit hypotheses or as guards of steps, never as axioms:
`BlobStore.Lawful` (compression and encryption are undone by their inverses, SHA-256 has no
collisions), the locking rules of the database in `BlobStore.Enabled`, `Deferrer.Lawful`
(listing a set yields each element once), and `Filenames.Lawful` (NFKC and the Windows path
function).

## What the code does where its documentation says otherwise

- `_last_separator_index` is documented as "at or before" its limit; the comma it finds is
  strictly before it, and the model follows the code.
- `_cleanup_orphaned_parents` is documented as removing parents without children. It runs while
  the renamed row still has its old name in the table, so with unique names it removes nothing
  (`Labels.CleanUpDeletesNothing`).
- Renaming a label to a free name keeps every parent present if and only if the new name is not
  beneath the old one (`Labels.RenameIsClosedUnlessBeneath`,
  `Labels.RenameBeneathItselfLosesTheParent`).
- Saving a label is no transaction: a rename its final validation refuses has already moved the
  labels below it, and leaves them without a parent if there are any
  (`Labels.RefusedRenameIsClosedExactlyWhenBare`, `Labels.RefusedRenameOrphansTheChild`).
- A template saved inactive and forced loses the flag, but only after taking it from the forced
  template of its scope (`Templates.InactiveForcedSaveDisplaces`).
- `bodyStructure` promises the flat walk's ids, and keeps the promise if and only if no leaf one
  level below the depth cap comes before a leaf the flat walk numbers
  (`MimeStructure.IdsAgreeUnlessAStubComesFirst`, `MimeStructure.DeepLeafShiftsTheIds`); a stub
  that comes after the last numbered leaf, or beyond the part cap, does no harm.
- A message the part cap stops midway through an outermost alternative can have one body only;
  `MimeAlternatives.OneBodyExactly` says which do, `MimeAlternatives.CutAlternativeLosesStep`
  gives one, and all others have both bodies or neither
  (`MimeAlternatives.BodiesAreBothEmptyOrNeither`).
- A complete comment with an odd number of quotes in it, the comments nested in it aside, is
  reported as unclosed when the nested ones hold paired quotes
  (`CommentGrammar.UnclosedCommentIsDetected`, `CommentGrammar.LoneQuoteIsMisread`).
- A printed list with a quote in a domain-literal can be reported as having an unclosed comment
  (`UnclosedComments.ListIsMisreadExactly`, `UnclosedComments.LoneQuoteInALiteral`).
- A valid id with an opening paren is emitted, and the parser takes what follows for a comment
  (`ThreadingLoop.LoopIsAFixedPointWithoutParens`, `ThreadingLoop.ParenIdIsLost`).
- Without forcing, a shared timestamp can leave a stale snippet, exactly when
  `ThreadStats.Ambiguous` holds of a change (`ThreadStats.SnippetIsAlwaysTheDerivedOne`,
  `ThreadStats.SharedTimestampGoesStale`).
- Without an access row, no thread reads as unread but every message does
  (`ThreadStats.ThreadUnreadMeansSomeMessageUnread`).

## Model

| member | source | states |
|---|---|---|
| MimeWalk.ParseBodyStructure | src/jmap-email/jmap_email/parser.py:1597-1815 | one call of the walk, on shared lists that may be shut and a shared counter, has exactly the effect of the state function `Parse` |
| MimeWalk.VisitAll | src/jmap-email/jmap_email/parser.py:1658-1799 | the sibling loop, with its early return at the part cap and the lists it leaves open |
| MimeWalk.VisitLeaf | src/jmap-email/jmap_email/parser.py:1658-1799 | a leaf is numbered and routed, and may shut a list for the siblings after it |
| MimeWalk.VisitContainer | src/jmap-email/jmap_email/parser.py:1703-1750 | a container is counted and walked, unless it re-declares an ancestor's boundary, which marks the message ambiguous |
| MimeWalk.CopyOver | src/jmap-email/jmap_email/parser.py:1801-1815 | the fallback of an alternative appends the tail of the one list that grew to the one that did not |
| MimeWalk.ParseMessageContent | src/jmap-email/jmap_email/parser.py:1863-1899 | the walk of a whole message, emptied when a boundary was reused |
| MimeWalk.ParseGrows | src/jmap-email/jmap_email/parser.py:1597-1815 | no call removes, reorders or renumbers an entry, and everything added has a fresh partId |
| MimePlacement.ParseWentThrough | src/jmap-email/jmap_email/parser.py:1643-1682 | for any tree and caps, a call visits exactly the first parts of the pre-order listing that fit the part cap, and numbers exactly the leaves among them |
| MimePlacement.WalkPlacesEveryLeaf | src/jmap-email/jmap_email/parser.py:1658-1815 | for every message: at most `max_mime_parts` parts visited; ids 1, 2, ... in pre-order; each list strictly increasing in partId, fallback copies included; attachments disjoint from the bodies; the fate of every visited leaf |
| MimePaths.EntriesAreTheParts | src/jmap-email/jmap_email/parser.py:1643-1750 | the listing the walk is measured against has one entry for each part within the depth cap and not beneath a re-declared boundary, in document order, each saying what stands at its path, what encloses it and which lists were shut before it |
| MimeRouting.EveryLeafIsRouted | src/jmap-email/jmap_email/parser.py:1684-1799 | for every message and any caps, from the leaf's own fields and its path alone: leaves get 1, 2, ... in document order; one with disposition attachment, of another type, after the first of a related container, a named later text, and media directly in an alternative are attachments and in no body; every other leaf is no attachment, and in the bodies of its type that are open, in both outside alternatives |
| MimeRouting.NothingElseIsListed | src/jmap-email/jmap_email/parser.py:1658-1815 | every entry of the three lists is one of those leaves under its number |
| MimeRouting.ReuseIsNoticed | src/jmap-email/jmap_email/parser.py:1712-1736 | a message is emptied exactly if one of the first `max_mime_parts` parts is a container declaring a boundary that a container around it declares too |
| MimePlacement.LeafIsLostExactlyWhenShutOut | src/jmap-email/jmap_email/parser.py:1752-1799 | a visited leaf is in none of the three lists if and only if it is inline and leaves of the other type, earlier beside it or beside a container around it, have shut the list of its type (for inline media, both lists) |
| MimePlacement.ReuseClearsTheMessage | src/jmap-email/jmap_email/parser.py:1712-1736 | the message is found ambiguous if and only if a visited container re-declares an ancestor's boundary, and then nothing is surfaced |
| MimeAlternatives.AlternativeInStep | src/jmap-email/jmap_email/parser.py:1801-1815 | a call on an alternative with two open lists, whose own loop the part cap does not stop, grows both or neither, whatever is cut or shut beneath it |
| MimeAlternatives.BodiesAreFilledExactly | src/jmap-email/jmap_email/parser.py:1752-1815 | for every message and any caps: a body is filled if and only if a visited leaf is put into it, or into the other one beneath an alternative that is entered with both lists open and not stopped in its own loop |
| MimeAlternatives.OneBodyExactly | src/jmap-email/jmap_email/parser.py:1659-1665 | exactly which messages, cut by the part cap or not, end with one body only |
| MimeAlternatives.BodiesAreBothEmptyOrNeither | src/jmap-email/jmap_email/parser.py:1659-1815 | unless the part cap is met in front of an own child, other than the first, of an outermost alternative, a message has a text body if and only if it has an HTML body |
| MimeAlternatives.UncutBodiesAreInStep | src/jmap-email/jmap_email/parser.py:1659-1815 | in particular on every message the part cap does not cut |
| MimeAlternatives.CutAlternativeLosesStep | src/jmap-email/jmap_email/parser.py:1659-1665 | a concrete message cut by the part cap that has an HTML body only |
| MimeAlternatives.AlternativeSeparatesOrMirrors | src/jmap-email/jmap_email/parser.py:1757-1815 | an alternative without a nested one keeps text/plain out of HTML and text/html out of text, or adds the same parts to both |
| MimeContents.WalkFillsTheSlots | src/jmap-email/jmap_email/parser.py:1597-1815 | for every message and any caps the three lists are those of a closed form: a recursion over the tree without shared lists, counter or early return says of each visited leaf which lists it is in, fallback copies included, and each list holds exactly its leaves in order under their numbers |
| MimeContents.TypesStayApartExactly | src/jmap-email/jmap_email/parser.py:1757-1815 | below an alternative, however alternatives are nested in it, text/html stays out of the text list and text/plain out of the HTML list if and only if no alternative visited comes to its end with both lists open and exactly one of them filled |
| MimeAlternatives.DroppedOnlyBelowAnAlternative | src/jmap-email/jmap_email/parser.py:1752-1799 | a visited leaf in none of the three lists is an inline one beneath an alternative |
| MimeAlternatives.WithoutAlternativesNothingIsLost | src/jmap-email/jmap_email/parser.py:1658-1799 | without alternatives every visited leaf is in both bodies, or in the attachments, and which one is decided by its headers and position |
| MimeStructure.BuildBodyStructureNode | src/jmap-email/jmap_email/parser.py:1477-1579 | the recursive builder under both caps, bumping the shared counter, has exactly the effect of `Build` |
| MimeStructure.BuildSubNodes | src/jmap-email/jmap_email/parser.py:1556-1579 | the loop over the children, cut at the part cap |
| MimeStructure.StructureFollowsSpots | src/jmap-email/jmap_email/parser.py:1507-1579 | for every message the flat walk does not find ambiguous, and any caps: the leaves of `bodyStructure` are those of the flat walk's listing with the leaves one level below the depth cap put in as stubs |
| MimeStructure.WalksAgree | src/jmap-email/jmap_email/parser.py:1501-1579 | for every such message and any caps, also when the part cap cuts both walks: equally many parts are visited, the ids of `bodyStructure` are 1, 2, ..., and its leaves without the stubs are in order the leaves the flat walk numbers, each id being that number plus the stubs before it |
| MimeStructure.IdsAgreeUnlessAStubComesFirst | src/jmap-email/jmap_email/parser.py:1501-1533 | under every id the flat walk hands out `bodyStructure` has that very leaf, if and only if no leaf one level below the depth cap comes, in pre-order and within the part cap, before a leaf the flat walk numbers |
| MimeStructure.DeepLeafShiftsTheIds | src/jmap-email/jmap_email/parser.py:1507-1533 | a concrete message past the depth cap in which id 1 names two different leaves |
| MimeStructure.IdsAgreeWithinTheDepthCap | src/jmap-email/jmap_email/parser.py:1513-1516 | in particular on every message within the depth cap |
| MimeStructure.BuildMirrors | src/jmap-email/jmap_email/parser.py:1534-1579 | the built tree has the shape of the MIME tree, each container keeping an initial segment of its children |
| MimeShape.StructureIsTheTreeUpToTheCaps | src/jmap-email/jmap_email/parser.py:1477-1579 | for every message, ambiguous or not, and any caps: `bodyStructure` is the MIME tree cut at one point of document order, whole unless the part cap is met, with stubs exactly one level below the depth cap, as many other nodes as the cap allows, and ids 1, 2, ... |
| MimeValues.BuildBodyValues | src/jmap-email/jmap_email/parser.py:2109-2151 | the map built over both bodies, first entry of an id winning |
| MimeValues.ValuesHoldTextParts | src/jmap-email/jmap_email/parser.py:2131-2150 | one value per text part and none for other parts |
| MimeValues.Normalise | src/jmap-email/jmap_email/parser.py:2142-2143 | no carriage return is left in a value, and text without one is unchanged |
| MimeValues.NormaliseJoinsTheLines | src/jmap-email/jmap_email/parser.py:2142-2143 | however a content falls into lines ended by CRLF, CR or LF, its value is those lines with one LF between each two |
| MimeValues.TheLinesDetermineTheText | src/jmap-email/jmap_email/parser.py:2142-2143 | no other value has the lines of the content, and a content without CR is its own value |
| MimeValues.ParseReported | src/jmap-email/jmap_email/parser.py:1756-1792 | the recorded encoding problems are exactly those of the parts in the two bodies |
| MimeValues.BodyValuesIndexTheStructure | src/jmap-email/jmap_email/parser.py:1501-1511 | for every message and any caps: the value under key n is the text, line for line, with the encoding flag, of the leaf of `bodyStructure` whose id is n plus the stubs before it, hence n itself unless a stub comes first; every text leaf of either body has a value |
| Scanner.LastSeparatorIndex | src/jmap-email/jmap_email/parser.py:671-708 | the result is a top-level comma before the limit and no later one is, or there is none |
| Scanner.CutAddressList | src/jmap-email/jmap_email/parser.py:765-778 | the cut fits the cap, leaves the scanner neutral, keeps an initial segment of the entries, and drops of the capped text only the unfinished last entry |
| Scanner.CutIsPrefix | src/jmap-email/jmap_email/parser.py:756-778 | cutting at the last separator never makes an entry the whole value does not have |
| Scanner.SplitAtSeparator | src/jmap-email/jmap_email/parser.py:682-708 | entries on the two sides of a top-level comma are independent |
| Scanner.SplitRejoins | src/jmap-email/jmap_email/parser.py:682-708 | splitting at top-level commas loses nothing |
| ListGrammar.EntriesAreFound | src/jmap-email/jmap_email/parser.py:671-708 | in any list of entries made of plain text, quoted-strings, domain-literals and comments, the scanner finds exactly the commas between the entries |
| AddrSpec.IsTerminatedQuotedString | src/jmap-email/jmap_email/addresses.py:91-124 | the walk over the escapes decides whether the quoted-string is complete |
| AddrSpec.WellQuotedMeansStaysInside | src/jmap-email/jmap_email/addresses.py:94-123 | that is so if and only if no prefix leaves the quotes and no escape is pending at the end |
| AddrSpec.AddrSpecIsClosed | src/jmap-email/jmap_email/addresses.py:52-88 | a valid address is one mailbox to the scanner wherever it stands |
| AddrSpec.DomainIsClosed | src/jmap-email/jmap_email/addresses.py:44-49 | a valid domain, literal or not, holds no top-level comma and leaves the scanner neutral |
| MailboxReading.QuotedByParity | src/jmap-email/jmap_email/addresses.py:91-124 | the walk over the escapes accepts exactly the strings in which every inner quote has an odd number of backslashes in front of it and the closing one an even number |
| MailboxReading.ValidAddressesAre | src/jmap-email/jmap_email/addresses.py:44-88 | exactly which addresses are valid, by code points: no control character, and a last `@` between a token or complete quoted-string and a token or domain-literal |
| Mailboxes.FormatAddressList | src/jmap-email/jmap_email/composer.py:350-367 | the printed list joins the mailboxes of the records that have an address |
| Mailboxes.EscapeIsWellQuoted | src/jmap-email/jmap_email/composer.py:341-345 | escaping makes any name a valid quoted-string interior and can be undone |
| Mailboxes.FormatAddressIsClosed | src/jmap-email/jmap_email/composer.py:307-347 | whatever the name and the address, a printed mailbox has no top-level comma and leaves the scanner neutral |
| Mailboxes.FormatAddressCarriesBoth | src/jmap-email/jmap_email/composer.py:304-347 | a printed mailbox carries the address as given and a phrase that reads back as the sanitized name |
| MailboxReading.PhraseIsSafe | src/jmap-email/jmap_email/composer.py:317-347 | the phrase before ` <addr>` is a complete quoted-string, or has none of the specials of section 3.2.3 of RFC 5322 and not both `=?` and `?=`; a name that is such a phrase stands as it is, any other is quoted and reads back |
| MailboxReading.OneAnglePair | src/jmap-email/jmap_email/composer.py:304-347 | outside quoted-strings and domain-literals a printed mailbox with a name has exactly one `<` and, behind it, one `>`; one without a name has none |
| MailboxReading.OneEntryPerRecord | src/jmap-email/jmap_email/composer.py:357-367 | each record with an address gives one printed entry, in order, and nothing else does |
| Mailboxes.PrintedListSplitsBack | src/jmap-email/jmap_email/composer.py:350-367 | N mailboxes in, N mailboxes out: splitting a printed list at its top-level commas gives the printed mailboxes one for one |
| Mailboxes.CutPrintedList | src/jmap-email/jmap_email/parser.py:774-778 | truncating a printed list keeps an initial segment of its mailboxes |
| UnclosedComments.HasUnclosedComment | src/jmap-email/jmap_email/parser.py:513-535 | the loop computes the paren depth outside quotes and escapes |
| UnclosedComments.ListIsMisreadExactly | src/jmap-email/jmap_email/parser.py:513-535 | a printed list reads as having an unclosed comment if and only if the quoted text of the mailboxes behind an odd number of domains with an odd number of quotes, put together, leaves a paren open |
| UnclosedComments.PrintedListHasNoUnclosedComment | src/jmap-email/jmap_email/parser.py:513-535 | in particular none does in which every domain has an even number of quotes |
| UnclosedComments.AddrSpecIsRead | src/jmap-email/jmap_email/parser.py:519-534 | in any state of the reader, an address switches quoting exactly when its domain has an odd number of quotes, and changes the depth only if its local part is read inside out |
| UnclosedComments.OddLiteralOpensAComment | src/jmap-email/jmap_email/parser.py:513-535 | for every address with an odd number a two-entry list is misread |
| UnclosedComments.LoneQuoteInALiteral | src/jmap-email/jmap_email/parser.py:519-534 | a concrete valid address with an odd number, a list with it that is misread and one that is not |
| CommentGrammar.CommentIsDropped | src/jmap-email/jmap_email/parser.py:307-346 | a comment of the grammar, with nested comments and escapes, is stripped whole and nothing after it is touched |
| CommentGrammar.CommentIsClosed | src/jmap-email/jmap_email/parser.py:687-698 | no comma inside a comment separates mailboxes |
| CommentGrammar.UnclosedCommentIsDetected | src/jmap-email/jmap_email/parser.py:513-535 | what the reader makes of any comment, quotes and nested comments included; where the quotes in nested comments are paired, it is reported until it is closed, and afterwards if and only if an odd number of quotes stands in it |
| CommentGrammar.LoneQuoteIsMisread | src/jmap-email/jmap_email/parser.py:519-534 | a concrete complete comment that is reported as unclosed |
| MessageIds.StripCfwsOf | src/jmap-email/jmap_email/parser.py:307-350 | the character loop, then collapsing and trimming |
| MessageIds.StripCfwsIsIdempotent | src/jmap-email/jmap_email/parser.py:307-350 | for every input the result has no opening paren and is a fixed point |
| Text.SanitizeTakesOutControls | src/jmap-email/jmap_email/composer.py:382-392 | sanitizing removes the control characters, listed by code point, wherever they stand, and nothing else |
| ThreadingInputs.WordsOfStripped | src/jmap-email/jmap_email/parser.py:348-350 | collapsing and trimming, over whatever white space, changes no word of the text left outside comments |
| ThreadingInputs.HeaderIsReadThroughCfws | src/jmap-email/jmap_email/parser.py:1919-1940 | reading a header gives exactly its ids in order, bracketed or bare, whatever white space and nested comments stand around and between them and whatever comment is left open behind them |
| MessageIds.JmapMessageIdsOf | src/jmap-email/jmap_email/parser.py:1919-1940 | the token loop, with `None` for no ids |
| MessageIds.MsgidChainOf | src/jmap-email/jmap_email/helpers.py:100-133 | the chain of the entries that can be written as they stand |
| ThreadingInputs.WrittenExactly | src/jmap-email/jmap_email/helpers.py:110-133 | which id an entry adds to a chain: what stands between the white space at its ends, without one pair of angle brackets, if it has no white space, control character or angle bracket |
| MessageIds.ChainRoundTripsWithoutParens | src/jmap-email/jmap_email/helpers.py:110-133 | reading a written chain gives its ids back if and only if none of them has an opening paren |
| MessageIds.CleanIdsSurvive | src/jmap-email/jmap_email/helpers.py:110-133 | ids without white space, stripped controls, angle brackets and opening parens round-trip |
| References.ValidateMsgidList | src/jmap-email/jmap_email/composer.py:608-635 | each string of the list is one candidate; the valid ones are joined |
| References.ValidateReferencesChain | src/jmap-email/jmap_email/composer.py:646-675 | the bracket pairs of a wire-form chain are the candidates; the appended id is skipped when it is already last |
| References.ValidateIsIdempotent | src/jmap-email/jmap_email/composer.py:450-485 | validation yields well-formed ids and leaves those alone |
| ThreadingInputs.ListEntryIsACandidate | src/jmap-email/jmap_email/composer.py:624-634 | each string of a list adds its id if it is accepted and nothing otherwise; what is no string adds nothing |
| References.TokensAreBracketPairs | src/jmap-email/jmap_email/composer.py:638-643 | every candidate is a bracket pair around text without brackets |
| References.EveryPairIsFound | src/jmap-email/jmap_email/composer.py:638-643 | every such pair in a text is found, whatever surrounds it |
| References.SetThreadingHeaders | src/jmap-email/jmap_email/composer.py:795-846 | working on joined strings, the composer emits the headers of the list-level specification |
| ThreadingInputs.AcceptedExactly | src/jmap-email/jmap_email/composer.py:450-485 | exactly which ids are accepted, and as what: at most 900 octets, in brackets, an `@` inside with something on either side, no white space, control or further bracket |
| ThreadingInputs.ParentsInOrder | src/jmap-email/jmap_email/composer.py:804-826 | In-Reply-To comes from the parameter, else from the JMAP list, else from the header |
| ThreadingInputs.ReferencesInOrder | src/jmap-email/jmap_email/composer.py:828-846 | References come from the JMAP list, else from the header, with the last parent behind them unless it is there already |
| ThreadingInputs.LaterSourcesDoNotMatter | src/jmap-email/jmap_email/composer.py:795-834 | a source that comes later in that order changes nothing |
| References.ValidIdsAreInOrder | src/jmap-email/jmap_email/composer.py:624-635 | the ids kept are a subsequence of the normalised input in its order |
| References.ChainEndsWithTheParent | src/jmap-email/jmap_email/composer.py:836-846 | the chain is the valid references plus at most one id, and ends with the last In-Reply-To id whenever there is one |
| References.ReplayIsAFixedPoint | src/jmap-email/jmap_email/composer.py:795-846 | composing again from the emitted wire headers emits the same headers |
| References.ReplayThroughListsIsAFixedPoint | src/jmap-email/jmap_email/composer.py:810-832 | so does composing again from the emitted ids as JMAP lists |
| ThreadingLoop.LoopIsAFixedPointWithoutParens | src/jmap-email/jmap_email/composer.py:795-846 | headers emitted, read by the parser as JMAP lists and composed again from those come out the same if and only if no emitted id has an opening paren |
| ThreadingLoop.ParenIdIsLost | src/jmap-email/jmap_email/parser.py:1919-1940 | a concrete valid id that does not survive that loop |
| BlobSafety.EncodeCarries | src/backend/core/models.py:2756-2783 | what is compressed and encrypted reads back as the content, under any setting and key |
| BlobSafety.RecheckMissKeeps | src/backend/core/models.py:2800-2807 | under the lock, no visible row means no row of that hash at all, uncommitted ones included |
| BlobSafety.InsertKeeps | src/backend/core/models.py:2851-2859 | inserting after the re-check keeps one row per hash |
| BlobSafety.DeleteKeeps | src/backend/core/services/blob_gc.py:314-353 | deleting an unreferenced row under both locks leaves no reference dangling and takes no row from a running transaction |
| BlobSafety.StepKeeps | src/backend/core/models.py:2687-2870 | every step of any caller or of the collector keeps the joint invariant |
| BlobSafety.EveryRunIsSafe | src/backend/core/models.py:2727-2868 | in every interleaving: at most one row per hash, no dangling reference, every caller reads back exactly its own content, and a caller inside a transaction has its row until it ends |
| BlobSafety.ReferencedRowsStay | src/backend/core/models.py:2871-2895 | no step removes a row with a live or an uncommitted reference |
| BlobSafety.UnreferencedRowIsCollected | src/backend/core/services/blob_gc.py:258-369 | the collector does remove a row that nothing but expired reservations points at and nobody holds, and exactly those reservations with it |
| BlobRetention.ReferencesKeepTheirBlobs | src/backend/core/models.py:2871-2895 | over every run and whatever follows it: a reference without an expiry, or not expired by the end, is still there with its row and the bytes it had, unless that very reference was dropped or the transaction that made it rolled back |
| BlobRetention.VerifiedReadIsTheContent | src/backend/core/models.py:3058-3089 | a verified read of any row filed under a hash gives the content of that hash or an error, and a compressed one never more than the recorded size |
| BlobRetention.NewContentIsStored | src/backend/core/models.py:2727-2868 | from any state without the content and with its lock free, the whole call can be run, and adds exactly one committed row that reads back, with its reference, and leaves every lock as it was |
| BlobRetention.RolledBackStoreLeavesNothing | src/backend/core/models.py:2800-2860 | the same call rolled back leaves rows, references and locks as they were |
| BlobRetention.StoredContentIsShared | src/backend/core/models.py:2745-2751 | content already stored is found, and only a reference is added |
| BlobRetention.RacingCallsShareOneRow | src/backend/core/models.py:2800-2807 | a caller overtaken between its lookup and the lock gets the row of the one that overtook it, and there is one row |
| BlobRetention.DroppedBlobIsCollected | src/backend/core/services/blob_gc.py:314-353 | once its only reference is dropped, a blob nobody is at is removed by one undisturbed collector run |
| BlobRetention.NoLockIsLeaked | src/backend/core/services/blob_gc.py:314-353 | over every run a lock is held only by a collector run under way or a transaction with an unfinished call |
| ThreadStats.Thread.UpdateStats | src/backend/core/models.py:1301-1478 | the fields modelled take the values of `Refresh` |
| ThreadStats.LastVisibleIsLatest | src/backend/core/models.py:1442-1448 | the last visible row is the latest one, ids breaking ties |
| ThreadStats.FullyTrashedHasNoDate | src/backend/core/models.py:1360-1474 | how the trash flags, the dates and the visible rows determine one another |
| ThreadStats.HintsDoNotMatter | src/backend/core/models.py:1255-1281 | faithful hints never change the result |
| ThreadRows.UpdateFitsTheRows | src/backend/core/models.py:1339-1474 | after every update, told over the rows: fully trashed exactly if there is a row and all are trashed; trashed at all exactly if one is; each date the greatest creation time of the rows it is about; and the snippet that of the row shown, kept, or lost |
| ThreadRows.FieldsAlwaysFit | src/backend/core/models.py:1339-1474 | the flags and dates fit the rows after every run |
| ThreadStats.UpdateIsRightUnlessAmbiguous | src/backend/core/models.py:1449-1455 | one change and one update keep the snippet right if and only if it is forced or the timestamp is not blind to the change |
| ThreadStats.ChangeKeepsTable | src/backend/core/models.py:1334-1337 | inserts, removals and edits that re-stamp a row keep the rows in query order |
| ThreadStats.DistinctTimesAreUnambiguous | src/backend/core/models.py:1424-1432 | distinct timestamps suffice, also when a row is re-stamped |
| ThreadStats.SentDraftIsSurfaced | src/backend/core/mda/outbound.py:499-521 | sending a draft clears its flag and re-stamps it in one save: if that makes it the latest, the update shows its date and snippet |
| ThreadStats.SnippetIsAlwaysTheDerivedOne | src/backend/core/models.py:1312-1317 | over every run the snippet is in every state the one derived from the last visible message, if and only if each update is forced or the timestamp is not blind to its change |
| ThreadStats.ForcedInDoubtSuffices | src/backend/core/models.py:1424-1432 | distinct timestamps, or forcing where they may coincide, meet that condition |
| ThreadStats.TrashKeepsAndRestoreDerives | src/backend/core/models.py:1434-1441 | a fully trashed thread keeps its snippet, and a restore derives it anew |
| ThreadStats.SharedTimestampGoesStale | src/backend/core/models.py:1312-1317 | a concrete run with a shared timestamp and no forcing that leaves a stale snippet |
| ThreadStats.ThreadUnreadMeansSomeMessageUnread | src/backend/core/models.py:1858-1902 | after every run the two thread-level filters agree, and the thread reads as unread for a mailbox exactly when some visible message does, if and only if the mailbox has an access row or the thread has no visible message |
| ThreadRows.UnreadThreadHasALaterRow | src/backend/core/models.py:1858-1902 | after every run a thread is unread for a mailbox exactly if the mailbox has access and some row, neither draft nor trashed, is later than its last reading or was never read |
| ThreadStats.UnreadForUser | src/backend/core/models.py:1885-1893 | the same across all the mailboxes of a user |
| Labels.LabelTable.Create | src/backend/core/models.py:1660-1677 | a new label is saved after its missing ancestors, unless its validation refuses it; the recursion ends |
| Labels.LabelTable.GetOrCreate | src/backend/core/models.py:1669-1673 | a missing ancestor is created in a transaction of its own, which a refusal undoes |
| Labels.LabelTable.CreateParents | src/backend/core/models.py:1660-1673 | the loop over the ancestors, shortest first, each got or created, ended by the first refusal |
| Labels.LabelTable.Save | src/backend/core/models.py:1625-1677 | saving a stored label: children moved, clean-up, ancestors, then the row itself if it is accepted; nothing is rolled back |
| Labels.LabelTable.CleanUpOrphans | src/backend/core/models.py:1679-1704 | the clean-up level by level |
| Labels.LabelTable.Delete | src/backend/core/models.py:1749-1769 | a delete removes the label and everything below it |
| Labels.EnsureParentsAdds | src/backend/core/models.py:1660-1673 | exactly the missing ancestors are added, each once |
| Labels.SaveNewIsValid | src/backend/core/models.py:1660-1677 | creating under a free name keeps names unique and parents present, and touches no other row |
| Labels.CreateIsValidEvenIfRefused | src/backend/core/models.py:116-119 | a create goes through exactly if the name and its missing ancestors are accepted; a refused one adds the ancestors before the first refused one and nothing else |
| Labels.CleanUpDeletesNothing | src/backend/core/models.py:1679-1704 | with unique names the clean-up removes no row |
| Labels.RenameMovesTheSubtree | src/backend/core/models.py:1639-1656 | a rename moves exactly the row and what is below it, and adds only missing ancestors of the new path |
| Labels.RenameIsClosedUnlessBeneath | src/backend/core/models.py:1637-1677 | parents stay present if and only if the new name is not beneath the old one |
| Labels.RenameBeneathItselfLosesTheParent | src/backend/core/models.py:1637-1677 | a concrete rename, "a" to "a/b", that leaves labels without their parent |
| Labels.RefusedRenameIsClosedExactlyWhenBare | src/backend/core/models.py:1637-1677 | a rename refused by the final validation leaves the row as it was, and parents present if and only if nothing was below the label |
| Labels.RefusedRenameOrphansTheChild | src/backend/core/models.py:1640-1677 | a concrete refused rename, "a" to "/b", after which "a/x" is "/b/x" without a parent |
| Labels.RenameBackRestores | src/backend/core/models.py:1639-1656 | renaming there and back restores every row |
| Labels.DeleteRemovesTheSubtree | src/backend/core/models.py:1749-1769 | a delete removes exactly the subtree and keeps the table valid |
| Labels.EveryRunIsValid | src/backend/core/models.py:1625-1769 | every run of creates, renames and deletes, refused ones included, keeps names unique and closed under parents |
| Labels.NoRunStoresABlankName | src/backend/core/models.py:1572-1578 | no run stores a blank name, whatever slashes the requested names start with |
| LabelRows.DirectChildIsOneLevelDown | src/backend/core/models.py:1724-1742 | a direct child is a label whose name is the parent's, a slash, and then no further slash |
| Labels.DirectChildrenHaveThatParent | src/backend/core/models.py:1706-1742 | the direct children of a label are exactly the labels whose parent name it is |
| LabelRows.CreateAddsThePath | src/backend/core/models.py:1660-1677 | a create goes through exactly if the name and the missing names above it are accepted, and adds just those rows, in the label's colour; a refused one adds only rows above the name; no other row is touched |
| LabelRows.RenameMovesTheRowsBelow | src/backend/core/models.py:1639-1677 | row by row what a rename does, accepted or refused: which rows move, with which new names, which are added in which colour |
| LabelRows.DeleteTakesTheRowsBelow | src/backend/core/models.py:1749-1769 | a delete leaves exactly the rows that neither are the label nor start with its name and a slash |
| LabelRows.LabelsAreATreeAfterEveryRun | src/backend/core/models.py:1625-1769 | after every run from an empty table names are unique, and every part of a name before a slash is a label |
| Templates.TemplateTable.Store | src/backend/core/models.py:3494-3540 | the displacing updates run first; a refused save is rolled back whole |
| Templates.EveryRunKeeps | src/backend/core/models.py:3494-3567 | every run keeps: one owner; at most one forced and one default per scope and type; one active autoreply per mailbox; the autoreply rules; nothing inactive forced or default |
| Templates.SaveTouchesOnlyItsScope | src/backend/core/models.py:3503-3538 | a save takes from other rows of its scope and type at most the flags it claims, and changes no other row |
| TemplateRules.SaveTakesFlags | src/backend/core/models.py:3503-3538 | row by row what a save, accepted or refused, leaves of every other template |
| TemplateRules.TableIsRightAfterEveryRun | src/backend/core/models.py:3494-3567 | the rules of `EveryRunKeeps` written out over pairs of rows |
| Templates.InactiveForcedSaveDisplaces | src/backend/core/models.py:3553-3556 | an inactive template flagged forced leaves its scope without a forced one |
| Templates.ForcedSignatureIsDetermined | src/backend/core/models.py:1080-1098 | at most one row can come first, the domain's before the mailbox's |
| Templates.SignatureChoiceIsSafe | src/backend/core/models.py:1098-1125 | the answer is an active signature of the mailbox or its domain, and no request can replace a forced one |
| TemplateRules.SignatureIsChosen | src/backend/core/models.py:1072-1125 | the answer is exactly the forced signature of the domain, else that of the mailbox, else the requested one if it is an active signature of either, else none |
| Deferrer.ReindexDeferrer.DeferItem | src/backend/core/utils.py:86-100 | an item is collected exactly when a scope is active |
| Deferrer.ReindexDeferrer.ScheduleThreadReindex | src/backend/core/signals.py:28-49 | an id goes to the active scope or to the commit hooks |
| Deferrer.ReindexDeferrer.FlushItems | src/backend/core/utils.py:187-214 | the slicing loop hands out the chunks in order; a refused chunk goes to the pending set |
| Deferrer.ReindexDeferrer.RunAll | src/backend/core/utils.py:101-117 | programs of nested scopes run as specified, whether or not their bodies raise |
| Deferrer.ChunksPartition | src/backend/core/utils.py:200-204 | the chunks are the list cut into non-empty pieces within the batch size |
| Deferrer.InnerScopesOnlyCollect | src/backend/core/utils.py:101-117 | inside a scope nothing is flushed, however scopes nest and are left |
| Deferrer.FlushIsExact | src/backend/core/utils.py:200-214 | a flush sends each item once, and each is enqueued or pending |
| Deferrer.OutermostExitFlushesOnce | src/backend/core/utils.py:104-117 | the outermost exit, normal or not, flushes once exactly what was scheduled inside |
| Deferrer.NothingIsLost | src/backend/core/signals.py:43-49 | after any program exactly the ids held before and those it scheduled are in the scope, a chunk, a commit hook or the pending set |
| Deferrer.NothingIsPendingBeforeTheCommit | src/backend/core/signals.py:43-49 | until a transaction ends nothing becomes pending but refused chunks: an id waits in the commit hooks |
| Deferrer.CommitEmptiesTheHooks | src/backend/core/signals.py:49 | when it ends exactly the waiting ids become pending, and none waits any more |
| Preview.TextExtractor.HandleEvent | src/jmap-email/jmap_email/preview.py:215-281 | one tokenizer event, with suppression, autolinks and word boundaries |
| Preview.TextExtractor.FeedAll | src/jmap-email/jmap_email/preview.py:283-300 | the event loop, ended by the interruption once the budget is met |
| Preview.StripHtmlOf | src/jmap-email/jmap_email/preview.py:307-319 | the extracted text |
| Preview.UnbudgetedCollectsAll | src/jmap-email/jmap_email/preview.py:239-242 | without a budget exactly the text outside suppressed elements is collected, in order |
| Preview.BudgetOnlyCutsTheTail | src/jmap-email/jmap_email/preview.py:283-319 | the budgeted output is an initial segment of the full one with exactly the first min(budget, total) visible characters, and equals it if and only if the total fits; blanks stand only between runs |
| PreviewText.FullTextIsJoined | src/jmap-email/jmap_email/preview.py:207-305 | the text extracted without a budget is what the events show outside script, style, title and blockquote, in order, with one blank wherever a tag, comment or declaration stands between two texts |
| Filenames.ResultIsSafe | src/jmap-email/jmap_email/filenames.py:48-132 | a result is non-empty, within the limit, free of separators, reserved, invisible and framing characters, and NFKC-stable |
| Filenames.TruncationKeepsTheExtension | src/jmap-email/jmap_email/filenames.py:117-131 | truncation with a kept extension yields exactly `max_length` characters ending in it |
| FilenameRules.PlainNameIsKept | src/jmap-email/jmap_email/filenames.py:112-115 | a name that is one path component within the limit loses exactly its framing, has exactly its reserved characters replaced, and is otherwise unchanged |
| FilenameRules.DirectoryIsDropped | src/jmap-email/jmap_email/filenames.py:112 | a directory in front of a name does not matter |
| FilenameRules.InvisibleIsDropped | src/jmap-email/jmap_email/filenames.py:90-92 | an invisible character anywhere in a name does not matter |
| FilenameRules.LongNameIsCut | src/jmap-email/jmap_email/filenames.py:117-131 | exactly how a name over the limit is cut: an extension of at most ten characters is kept whole, otherwise the start is kept without the framing the cut lays bare |
| Filenames.SanitizeIsIdempotent | src/jmap-email/jmap_email/filenames.py:48-132 | sanitizing twice is sanitizing once |

## Left out

- The standard `email` package, `html.parser` tokenizing and decoding of headers and bodies: the model starts from MIME trees, event sequences and strings.
- Exceptions raised inside the body walk (the caller records a defect and keeps what was collected), and messages that are no `Message` object.
- The other fields of a body part (size, charset, language, location, headers, hashes): a part is its type, disposition, name, content and encoding flag; partIds are numbers, not their decimal text.
- Values of the wrong Python type, except list elements that are not records or not strings, which are skipped as in the source.
- `getaddresses`, the group syntax and the choice among its candidates, which run on the text after the cut.
- The regex stages of the preview and the quoted-line filter.
- The object-storage tier of blobs, offloading and re-encryption, the transient-failure paths of uploads.
- A transaction that mixes several concurrent statements: each transaction of the blob model runs its `create_blob` calls one after the other, and a collector run deletes and commits in one step.
- ThreadStats.Thread.UpdateStats: sets the trash flags, the last and the trashed date and the snippet; the other per-view dates, flags, delivery states and sender names follow the same filter-and-maximum pattern.
- Label slugs: the verdict of a validation, which includes the clash of slugs, is a parameter. A rename keeps the slug of its row, so the constraint does not refuse a taken name; that the target is free is a precondition of the run theorem. A clash among the slugs of the moved children, which the database reports in mid-loop, is not modelled.
- The contents of autoreply schedules (one flag says whether they validate), signatures attached to autoreplies, and deletion by cascade.
- The setting that turns thread indexing off, and a Redis buffer that refuses an id: the pending set accepts every id that is not null.
- Rollback of a database transaction dropping its commit hooks, the periodic drain of the pending set, and the per-thread work of the statistics flush, whose chunking is the same.
- NFKC and the Unicode categories themselves; the sanitizer is proved on the stated facts about them.
