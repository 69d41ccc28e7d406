# Verified model of kMark's text cores

kMark is a Markdown editor. This project models the parts of it where text, positions and state must
agree exactly, and proves what they promise:

- **Text theory** (`Encoding`, `Splicing`, `LineEndings`): scalars, UTF-8 and UTF-16 offsets (section 3 of
  RFC 3629, section 2.1 of RFC 2781), simultaneous splices and their inverses, line endings.
- **The editor document** (`EditorTransactions`, `EditorDocuments`): UTF-16 addressed transactions applied
  in place from the right, batches with per-client ids, replays, revisions, the saved baseline.
- **The application service** (`Sessions`, `SessionProtocol`, `SessionTheorems`, `SessionCalls`, `SaveRaces`,
  `StagedOperations`, `SessionEffects`, `SessionRefinement`, `ApplicationService`): sessions, proposals, staged
  file operations and preview hints behind one lock. It is modelled twice: each lock-held section as one step
  with arbitrary interleaving, and each public call as one step; the two agree.
- **Text edits and locators** (`TextEdits`, `Locator`): byte-addressed edits and the two ways a tool finds
  the place of an edit.
- **The two-slot state store and its lock** (`StateStore`, `StateLock`): a crash-tolerant register and a
  promise chain.
- **The table formatter** (`TableScanner`, `TableFormat`, `TableTheorems`, `SourceLines`, `TableDocument`,
  `TableDocumentTheorems`, `TablePlaces`): the scanner, one table, and the whole text.
- **The SVG rewriter** (`SvgEvents`, `SvgIds`, `SvgReferences`, `SvgRewrite`, `SvgTheorems`, `SvgLinks`,
  `SvgTexts`, `SvgAcceptance`, `SvgTags`): two streaming passes over XML events, a depth-counter filter, id
  renaming and the references that follow it, what is shown, and exactly what is accepted.
- **The math parser and renderer** (`MathSyntax`, `MathParsing`, `MathSoundness`, `MathCompleteness`,
  `MathParsers`, `MathRender`): a grammar, what the parser reads at each place, that it is sound and complete
  for the grammar, the parser with its moving cursor, and MathML.

Code that works step by step is a method with loops, or a class whose methods update its fields, proved
equal to a specification function; the properties are lemmas about those functions.

## What the proofs found

- `accept_session_proposal` does not look at the status again in its last section, so a proposal that was
  rejected in between is applied all the same and its final status overwritten; the edit itself is still
  exact. `SessionTheorems.RejectedThenAccepted` gives the run, and `SessionCalls.NextKeepsLinkedIff` says
  exactly which sections keep the link between a session and its pending proposal, and
  `SessionCalls.NextIsFinalIff` exactly which leave a final status.
  `SessionCalls.FinishAcceptKeepsLinkedIff`, `SessionCalls.MarkStaleKeepsLinkedIff` and
  `SessionCalls.MarkStaleIsFinalIff` give the conditions section by section.
- Opening a file and saving it unchanged restores its bytes exactly when its line endings are uniformly LF
  or uniformly CRLF (`LineEndings.OpenAndSaveIsIdentityIffUniform`); `LineEndings.MixedEndingsAreNotKept` is
  a file that changes.
- The order of the edits of an accepted request makes no difference exactly when the texts inserted at one
  point commute (`TextEdits.OrderDoesNotMatterIff`); `TextEdits.OrderMattersAtOnePoint` is a request where
  it does.
- Without an occurrence number the exact-text locator accepts a text that occurs a second time as long as
  that occurrence overlaps the first (`Locator.OverlapsAreNotAmbiguous`; exactly:
  `Locator.AcceptedWithoutNumberIff`).
- The line-range locator accepts an end line beyond the last line (`Locator.EndBeyondTheLastLine`) and cannot
  name the empty line after a final line break (`Locator.EmptyLastLineCannotBeNamed`).
  `Locator.LineRangeAcceptedIff` says exactly what it accepts, `Locator.AskedLinesExistIff` and
  `Locator.EndIsAskedIff` exactly when the asked lines exist and when the range ends in the asked one.
- A table row that ends inside a code span swallows its padding and grows on every pass; formatting twice
  is the same as formatting once exactly when no table has such a row and none swallows a blank line
  (`TableDocumentTheorems.FormatAllTwiceIff`), and otherwise no number of passes settles an open row
  (`TableDocumentTheorems.OpenRowsNeverSettle`; `TableDocumentTheorems.OpenRowNeverSettles` is such a text).
- `trim_up_to_three_leading_spaces` lets four spaces pass, against its name; the model follows the code
  (`TableDocument.FenceIndentation`).
- `rewrite_fragment_urls` drops the quotes around an address it keeps, so every allowed address with a
  parenthesis is another one afterwards (`SvgReferences.QuotesAreMissed`); there are such addresses, since only
  the host or the kind of picture is looked at (`SvgReferences.AllowedWithParenthesis`).
  `SvgReferences.UrlsAreMoved` says exactly when the rewritten value reads as meant. References into the SVG
  always do.
- A link on an `a` to a fragment that named nothing is kept, and may name a new id (`SvgLinks.LinkIsCaptured`);
  `SvgLinks.KeptFragmentIsCapturedIff` says exactly when.
- A style element inside a style element makes the outer one forget its text, and the text behind it is written
  without the style rules (`SvgTexts.NestedStyleForgets`); `SvgTexts.OutputShowsTheTree` says what is shown of
  every tree.
- Two saves of one path are not ordered: an older write may land after a newer one and before its mark, which
  leaves a clean document over an older file (`SaveRaces.OlderWriteLandsLast`);
  `SaveRaces.SavedFileIsCurrentIff` says exactly when the file is current.
- A table whose first line ends in a bare CR gets that ending on its last row too, where a following blank
  line's LF joins it; the next pass loses the blank line (`TableDocumentTheorems.BlankIsSwallowed`).
- The formatter's "table has no columns" error cannot come up (`TableTheorems.ParsedIsFormatted`).

## Model

| member | source | states |
|---|---|---|
| Encoding.UnitsAreStandard | crates/kmark-core/src/editor_document.rs:628-650 | the code units of a scalar are those of section 3 of RFC 3629 and section 2.1 of RFC 2781: their number, their ranges, and the scalar they give back |
| Encoding.UnitToCharIsFloor | crates/kmark-core/src/editor_document.rs:628-650 | mapping a UTF-16 or UTF-8 offset to a scalar index gives the last scalar that starts at or before it, for every offset |
| Encoding.StrictIndexExact | crates/kmark-core/src/editor_document.rs:628-650 | an offset is accepted exactly when it is the encoded length of a prefix, and then names that prefix |
| Encoding.StrictIndexSplitsNoScalar | crates/kmark-core/src/editor_document.rs:628-650 | an offset inside the text is refused exactly when the code unit there continues a scalar, so never inside a surrogate pair |
| Splicing.InverseRestores | crates/kmark-core/src/editor_document.rs:572-626 | any simultaneous substitution is undone by the substitution of the replaced parts at the shifted places |
| Splicing.SubstituteFrom | crates/kmark-core/src/editor_document.rs:572-626 | what a list of later edits does to a text does not depend on the part before the first of them |
| UnitSplicing.EncodeSubstitute | crates/kmark-core/src/editor_document.rs:572-626 | substituting scalars and then encoding is substituting code units in the encoded text |
| LineEndings.DetectLineEnding | crates/kmark-core/src/editor_document.rs:533-570 | the cursor loop with its counters finds the dominant line ending of the whole input |
| LineEndings.EndingIsTheMajority | crates/kmark-core/src/editor_document.rs:533-570 | a text is taken as CRLF exactly when more of its breaks are CRLF than stand alone, or as many and the first one is |
| LineEndings.NormalizeEditorText | crates/kmark-core/src/editor_document.rs:533-570 | the two replacement passes give the canonical text together with the dominant ending |
| LineEndings.TwoPassesAreOne | crates/kmark-core/src/editor_document.rs:533-570 | replacing CRLF and then CR is one left-to-right pass that turns every line ending into one LF |
| LineEndings.EndingsBecomeLfs | crates/kmark-core/src/editor_document.rs:533-570 | the normalized text has as many LFs as the input has line endings: the two passes and the one-pass counter see the same endings |
| LineEndings.CanonicalHasNoCr | crates/kmark-core/src/editor_document.rs:533-570 | no carriage return is left |
| LineEndings.PersistRoundTrip | crates/kmark-core/src/editor_document.rs:327-345 | persisting and normalizing gives back the text, and the ending if there is a line break |
| LineEndings.OpenAndSaveIsIdentityIffUniform | crates/kmark-core/src/editor_document.rs:250-337 | opening and saving restores the bytes exactly for uniformly LF or uniformly CRLF files |
| LineEndings.MixedEndingsAreNotKept | crates/kmark-core/src/editor_document.rs:250-337 | a file with one ending of each kind that is not restored |
| LineEndings.ToCrLfConcat | crates/kmark-core/src/editor_document.rs:516-531 | CRLF conversion of chunks put together is the conversion of the whole, wherever the text is cut |
| LineEndings.WriteCrLfChunk | crates/kmark-core/src/editor_document.rs:516-531 | the loop over the breaks of one chunk appends exactly its CRLF form |
| LineEndings.WriteTo | crates/kmark-core/src/editor_document.rs:99-112 | whatever the chunks, what is written is the persisted form of the whole text |
| EditorTransactions.StrictUtf16ToChar | crates/kmark-core/src/editor_document.rs:628-650 | the boundary test in the rope answers with the scalar index or the boundary error |
| EditorTransactions.RefusedExactlyWhenUnfit | crates/kmark-core/src/editor_document.rs:572-619 | a transaction is refused exactly when a change is out of order or range, off a scalar boundary, or inserts a carriage return |
| EditorTransactions.RefusalNamesTheFault | crates/kmark-core/src/editor_document.rs:572-619 | the error of a refused transaction is the first fault: which change, which offset, and of what kind |
| EditorTransactions.ValidateChanges | crates/kmark-core/src/editor_document.rs:572-619 | validation in old coordinates returns the first error or all changes resolved to scalar positions |
| EditorTransactions.ApplyFromTheRight | crates/kmark-core/src/editor_document.rs:621-626 | removing and inserting in place from the right equals the simultaneous substitution in old coordinates, several inserts at one point in their order |
| EditorTransactions.ApplyTransaction | crates/kmark-core/src/editor_document.rs:572-626 | the rope ends as the substituted text, or is unchanged with the exact error |
| EditorTransactions.InverseUndoes | crates/kmark-core/src/editor_document.rs:572-626 | every accepted transaction has an inverse with shifted offsets that is accepted on the result and restores the text |
| EditorTransactions.AfterKeepsLf | crates/kmark-core/src/editor_document.rs:572-626 | an accepted transaction brings no carriage return in |
| EditorDocuments.EditorDocument.FromExternal | crates/kmark-core/src/editor_document.rs:250-278 | a document opened from outside is canonical, and its baseline is its text unless it is dirty |
| EditorDocuments.EditorDocument.MarkSaved | crates/kmark-core/src/editor_document.rs:347-350 | the baseline becomes the text and nothing else changes |
| EditorDocuments.EditorDocument.ReplaceCanonicalText | crates/kmark-core/src/editor_document.rs:352-370 | the text is replaced at the next revision, or the document is unchanged with the error |
| EditorDocuments.EditorDocument.SetDirtyAndTouch | crates/kmark-core/src/editor_document.rs:372-378 | the flag and the baseline change together at the next revision, or nothing does |
| EditorDocuments.EditorDocument.Touch | crates/kmark-core/src/editor_document.rs:380-382 | the revision advances, or nothing changes |
| EditorDocuments.EditorDocument.AdmitBatch | crates/kmark-core/src/editor_document.rs:415-476 | replay, sequence, reuse and revision checks in the order of the source |
| EditorDocuments.EditorDocument.ApplyMutationBatch | crates/kmark-core/src/editor_document.rs:415-502 | the whole new state and answer for every batch; any error leaves the document as it was |
| EditorDocuments.AcceptedExactlyWhenNext | crates/kmark-core/src/editor_document.rs:415-502 | a batch is accepted exactly when it is its client's next one, for the current revision, which is not the last, and has transactions that fit in turn; and then the whole new document and acknowledgement |
| EditorDocuments.ReplayedExactlyWhenRepeated | crates/kmark-core/src/editor_document.rs:427-437 | a batch is answered as a replay exactly when it equals its client's latest one, with the answer of then and the dirty flag of now if nothing has changed since |
| EditorDocuments.RefusalNamesItsReason | crates/kmark-core/src/editor_document.rs:415-476 | each error is given exactly for its reason, with the expected and actual numbers |
| EditorDocuments.ExactlyOnce | crates/kmark-core/src/editor_document.rs:415-502 | over any run of batches of any clients, resends, failures and replacements, text and revision are those of the accepted effects applied once each in revision order |
| EditorDocuments.AcceptedIdsAreContiguous | crates/kmark-core/src/editor_document.rs:415-502 | in any run the accepted ids of a client continue from its last one without gap or repeat |
| EditorDocuments.ResendIsIdempotent | crates/kmark-core/src/editor_document.rs:415-502 | resending a client's latest batch after anything the others did changes nothing and returns the original revision and length |
| EditorDocuments.ReachableIsConsistent | crates/kmark-core/src/editor_document.rs:347-378 | in every reachable state there is no carriage return and dirty holds exactly when there is no baseline or the text differs from it |
| EditorDocuments.UndoBatchIsAccepted | crates/kmark-core/src/editor_document.rs:478-502 | the batch of inverse transactions is accepted after any accepted batch, restores the text, and clears dirty when that text is the baseline |
| EditorDocuments.UndoRestores | crates/kmark-core/src/editor_document.rs:478-502 | any accepted list of transactions is undone by the inverses in reverse order |
| EditorDocuments.ImpactIsTheSplice | crates/kmark-core/src/editor_document.rs:390-413 | there is a hint exactly for single changes, and it describes the one splice from the old text to the new one |
| EditorDocuments.ApplyTransactions | crates/kmark-core/src/editor_document.rs:478-502 | the transactions of a batch are applied one after the other, up to the first error |
| TextEdits.SortEdits | crates/kmark-application/src/service.rs:1158-1160 | the stable sort by start and end keeps the order of equal keys |
| TextEdits.CheckRanges | crates/kmark-application/src/service.rs:1161-1175 | the loop accepts exactly edits that are in range, disjoint, and on character boundaries |
| TextEdits.ReplaceFromTheRight | crates/kmark-application/src/service.rs:1176-1182 | replacing ranges in the buffer from the right is the simultaneous substitution |
| TextEdits.ApplyTextEdits | crates/kmark-application/src/service.rs:1158-1182 | the result or the refusal, for every list of edits |
| TextEdits.ApplyIsByteSubstitution | crates/kmark-application/src/service.rs:1158-1182 | an accepted request is the simultaneous substitution of byte ranges on the UTF-8 bytes |
| TextEdits.ApplyKeepsLf | crates/kmark-application/src/service.rs:1158-1182 | normalized replacements keep a text free of carriage returns |
| TextEdits.OrderDoesNotMatterIff | crates/kmark-application/src/service.rs:1158-1182 | for every request: all orders of its edits give one result exactly when it is refused or the texts inserted at one place commute |
| TextEdits.OrderDoesNotMatter | crates/kmark-application/src/service.rs:1158-1182 | permuting edits with pairwise distinct ranges does not change the result |
| Splicing.ExchangeInsertions | crates/kmark-application/src/service.rs:1176-1182 | two insertions at one point can be exchanged exactly when what they insert commutes |
| TextEdits.OrderMattersAtOnePoint | crates/kmark-application/src/service.rs:1158-1182 | two insertions at one point give different texts in the two orders |
| Locator.MatchOccurs | crates/kmark-mcp/src/locator.rs:3-31 | every match that is found is an occurrence, and matches are in order and do not overlap |
| Locator.MatchesCover | crates/kmark-mcp/src/locator.rs:3-31 | every occurrence is a match or overlaps one that was found before it |
| Locator.AcceptedWithoutNumberIff | crates/kmark-mcp/src/locator.rs:3-31 | without a number a text is accepted exactly when it occurs and every further occurrence overlaps the first |
| Locator.NumberedOccurrenceIsEdited | crates/kmark-mcp/src/locator.rs:3-31 | with a number the edit is that of the occurrence with this number, each one looked for behind the one before, and is refused exactly when there is none |
| Locator.UnnumberedRefusal | crates/kmark-mcp/src/locator.rs:3-31 | without a number a text is reported as not found exactly when it does not occur, and as empty exactly when it is |
| Locator.OverlapsAreNotAmbiguous | crates/kmark-mcp/src/locator.rs:3-31 | an input with two overlapping occurrences that is not reported as ambiguous |
| Locator.LineStartsExact | crates/kmark-mcp/src/locator.rs:66-75 | the line starts are 0 and the places right after each line feed, the one after a final line feed included |
| Locator.ExactTextEditComposes | crates/kmark-mcp/src/locator.rs:3-31 | an exact-text edit selects the expected text on character boundaries and is applied as prefix, normalized replacement, suffix |
| Locator.LineRangeAcceptedIff | crates/kmark-mcp/src/locator.rs:33-64 | a line range is accepted exactly when it is in order, its start can be named, and the expected text is that of the asked lines, cut at the last line |
| Locator.LineRangeEditComposes | crates/kmark-mcp/src/locator.rs:33-64 | an accepted line-range edit starts where the start line does, ends right before the break of the end line (or of the last line that can be named), and is applied as prefix, normalized replacement, suffix |
| Locator.EndIsAskedIff | crates/kmark-mcp/src/locator.rs:49-56 | an accepted range ends in the line that was asked for exactly when that line can be named |
| Locator.AskedLinesExistIff | crates/kmark-mcp/src/locator.rs:42-56 | all asked lines exist exactly when the end line is one of the line starts, which the code does not demand |
| Locator.EndBeyondTheLastLine | crates/kmark-mcp/src/locator.rs:42-56 | an input whose end line is far beyond its only line and that is accepted |
| Locator.EmptyLastLineCannotBeNamed | crates/kmark-mcp/src/locator.rs:42-63 | an input whose empty last line is a line start and is refused |
| SessionProtocol.AcceptedExactly | crates/kmark-application/src/service.rs:698-784 | for every kind of proposal, a successful last section of accepting passed both tests on the very text of the diff and moved the document to the proposed text at the next revision |
| StagedOperations.AcceptanceTakesEffect | crates/kmark-application/src/service.rs:698-784 | an accepted text edit makes the document dirty without a baseline and stages nothing; an accepted rename or deletion leaves the text alone and stages exactly that kind and target, with the place and fingerprint of the file, at the new revision |
| StagedOperations.AcceptanceSucceedsIff | crates/kmark-application/src/service.rs:698-784 | accepting succeeds exactly when the revision and the hash are those of the proposal and it can take effect, is out of date exactly when one of the two is not, and otherwise fails for the reason named; nothing changes unless it succeeds |
| StagedOperations.CommitComesFromAcceptance | crates/kmark-application/src/service.rs:639-1015 | under every interleaving a rename or deletion that is committed was staged by an accepted proposal of its session, of that kind and target |
| SessionProtocol.CreatedProposalsAlwaysApply | crates/kmark-application/src/service.rs:698-784 | a created proposal of any kind is out of date exactly when its base revision has passed, and is applied exactly when it is current (and not the last one, and the file was looked at for a rename or deletion): neither the hash nor a range test can fail |
| SessionProtocol.NextKeepsHints | crates/kmark-application/src/service.rs:191-232 | whatever section runs, a stored hint describes the one splice that led to its revision |
| SessionTheorems.ReachableInv | crates/kmark-application/src/service.rs:124-1085 | the invariant over sessions, proposals, hints, calls in flight and accepted proposals holds after every interleaving of lock-held sections |
| SessionTheorems.RevisionDeterminesText | crates/kmark-application/src/service.rs:124-319 | under every interleaving revisions never go back, and the same revision means the same text and line ending |
| SessionTheorems.AcceptedProposalsAreExact | crates/kmark-application/src/service.rs:639-784 | under every interleaving at most one proposal of any kind is accepted per base revision of a session, on exactly the text its diff was computed from, with exactly the proposed result |
| SessionTheorems.SaveIsFaithful | src-tauri/src/commands/file_open.rs:54-88 | however anything interleaves with the disk write, if marking saved succeeds then the written bytes are the document's persisted text and the baseline is that text |
| SaveRaces.SavedFileIsCurrentIff | src-tauri/src/commands/file_open.rs:54-88 | when a save is marked, the file holds the document exactly when what was last written to its path since the save's own write, if anything, is the same |
| SaveRaces.OlderWriteLandsLast | src-tauri/src/commands/file_open.rs:54-88 | a run that leaves a clean document whose file holds an older text |
| SessionTheorems.RenderIsConsistent | crates/kmark-application/src/service.rs:439-503 | a render that is kept was made from the current text, and the hint it used is exactly the last splice |
| SessionTheorems.RejectedYetApplied | crates/kmark-application/src/service.rs:639-784 | a proposal that was read for acceptance is applied and accepted whatever its status has become, as long as its base revision is current |
| SessionTheorems.RejectedThenAccepted | crates/kmark-application/src/service.rs:639-784 | a run in which a rejected proposal ends as accepted |
| SessionCalls.LinkedFromTheStart | crates/kmark-application/src/service.rs:575-806 | with public calls atomic, in every reachable state a session's pending id is p exactly when p is pending for it, so there is at most one |
| SessionCalls.CallsKeepLinked | crates/kmark-application/src/service.rs:575-806 | with public calls atomic, accepted, rejected and stale are never left |
| SessionRefinement.SectionsAmountToTheCall | crates/kmark-application/src/service.rs:124-1064 | every public call, its sections run one after the other, does to the state what the call does as one step and leaves no frame: the two models agree |
| SessionRefinement.SaveAmounts | src-tauri/src/commands/file_open.rs:54-88 | a save whose sections run one after the other marks the session saved, if it was at the expected revision |
| SessionCalls.NextKeepsLinkedIff | crates/kmark-application/src/service.rs:575-1064 | whatever section runs, the link between a session and its pending proposal stays exact, the two settling sections excepted, which keep it exactly when the session is not linked to another proposal by now |
| SessionCalls.NextIsFinalIff | crates/kmark-application/src/service.rs:575-1064 | whatever section runs, accepted, rejected and stale are not left, the two settling sections excepted, which leave one exactly when their proposal has been settled otherwise by now |
| SessionCalls.MarkStaleKeepsLinkedIff | crates/kmark-application/src/service.rs:1056-1064 | run as a section of its own, marking stale keeps the link exact exactly when the session is not linked to another proposal by then |
| SessionCalls.MarkStaleIsFinalIff | crates/kmark-application/src/service.rs:1056-1064 | and overwrites no final status exactly when the proposal is still pending or already stale |
| SessionCalls.FinishAcceptKeepsLinkedIff | crates/kmark-application/src/service.rs:698-784 | the same two conditions, exactly, for the last section of accepting |
| ApplicationServices.ApplicationService.SyncFrontendSession | crates/kmark-application/src/service.rs:124-189 | the new state of the whole service and the answer, for every request |
| SessionEffects.SyncTakesEffect | crates/kmark-application/src/service.rs:124-189 | a sync succeeds exactly at the current revision, without a staged deletion, and unless the revisions are used up; the session then has the content in canonical form, the line ending by majority if there are carriage returns, the names and the flag |
| SessionEffects.SyncRefusal | crates/kmark-application/src/service.rs:124-189 | each refusal for its reason, and what it leaves unchanged |
| SessionEffects.SyncedContentIsSaved | crates/kmark-application/src/service.rs:124-246 | a synced content comes back byte for byte from the snapshot taken next exactly when its breaks are all CRLF, or it has no carriage return and the session writes LF or there is no break |
| SessionEffects.OpenTakesEffect | crates/kmark-application/src/service.rs:77-122 | an opened document gets a new id, its canonical text at revision 1 and its baseline, and no other session changes |
| ApplicationServices.ApplicationService.ApplyEditorMutationBatch | crates/kmark-application/src/service.rs:191-232 | the document applies the batch and the hint is stored for the new revision, except for replays and errors |
| SessionEffects.BatchTakesEffect | crates/kmark-application/src/service.rs:191-232 | a batch reaches the document of its session exactly when no deletion is staged and the document accepts it, and only a new one leaves a hint |
| SessionEffects.BatchRefusal | crates/kmark-application/src/service.rs:191-232 | a revision conflict is reported exactly for a next batch at another revision, with the current one |
| SessionEffects.DeliveredChangeIsTheHint | crates/kmark-application/src/service.rs:191-484 | the render begun after a batch of one change is told exactly the splice that the change was |
| ApplicationServices.ApplicationService.MarkFrontendSessionSaved | crates/kmark-application/src/service.rs:275-319 | the baseline moves only if the expected revision is current |
| SessionEffects.SavedBecomesTheBaseline | crates/kmark-application/src/service.rs:275-319 | marking succeeds exactly at the expected revision, makes the text the baseline and leaves text and revision alone |
| SessionEffects.SnapshotIsTheDocument | crates/kmark-application/src/service.rs:234-246 | a snapshot is given exactly at the expected revision and persists as the document does |
| ApplicationServices.ApplicationService.CreateSessionProposal | crates/kmark-application/src/service.rs:575-629 | the proposal holds the base revision, hash and diff of the current text and becomes the session's pending one |
| SessionEffects.ProposalIsMadeExactlyWhen | crates/kmark-application/src/service.rs:575-629 | a proposal is made exactly for a visible session without a pending one at its current revision, if the edit applies or the file has a place; it shows the text before and after and becomes the pending one |
| SessionEffects.ProposalRefusal | crates/kmark-application/src/service.rs:575-629 | why a proposal is not made: the first reason that applies |
| SessionEffects.ProposedAndRejected | crates/kmark-application/src/service.rs:575-806 | a proposal that is made and rejected leaves every session as it was |
| ApplicationServices.ApplicationService.FinishAcceptProposal | crates/kmark-application/src/service.rs:698-784 | revision test, hash test, effect by kind, and the accepted status, in the source's order |
| ApplicationServices.ApplicationService.MarkProposalStale | crates/kmark-application/src/service.rs:1056-1064 | the status becomes stale and the link is dropped, without looking at either |
| SessionEffects.StaleTakesEffect | crates/kmark-application/src/service.rs:1056-1064 | the proposal is stale and the session free, whichever of the two is there, and nothing else changes |
| ApplicationServices.ApplicationService.RejectSessionProposal | crates/kmark-application/src/service.rs:786-806 | only a pending proposal is rejected |
| SessionEffects.RejectedExactlyWhenPending | crates/kmark-application/src/service.rs:786-806 | rejection succeeds exactly for a pending proposal, and changes its status and its session's link only |
| ApplicationServices.ApplicationService.FinishCommitStaged | crates/kmark-application/src/service.rs:969-1015 | the staged rename or deletion takes effect on the session |
| SessionEffects.CommitTakesEffect | crates/kmark-application/src/service.rs:924-1015 | a commit succeeds exactly while the operation is still the staged one; afterwards the session has the new name, path and fingerprint, or no file at all and is dirty unless empty, with the text unchanged |
| ApplicationServices.ApplicationService.CancelStagedFileOperation | crates/kmark-application/src/service.rs:1017-1040 | the staged operation is dropped and the document touched |
| SessionEffects.CancelTakesEffect | crates/kmark-application/src/service.rs:1017-1040 | cancelling succeeds exactly when something is staged and a revision is left, and drops the stage only |
| ApplicationServices.ApplicationService.BeginRenderPreview | crates/kmark-application/src/service.rs:439-484 | the document and the hint of exactly the expected revision |
| ApplicationServices.ApplicationService.FinishRenderPreview | crates/kmark-application/src/service.rs:495-503 | a render is kept only if its revision is still current |
| SessionEffects.RenderTakesEffect | crates/kmark-application/src/service.rs:439-503 | a render begins and ends exactly at the current revision, and owns the cache between |
| ApplicationServices.PersistEditorSession | src-tauri/src/commands/file_open.rs:54-88 | snapshot, write and mark saved: the file holds the snapshot's persisted form, and is the document's when marking succeeds |
| StateStore.WebStateStore.LoadState | src/infra/webStateStore.ts:375-414 | the new contents of both slots and the legacy copy, and the loaded value, for every combination of slot contents |
| StateStore.WebStateStore.PersistState | src/infra/webStateStore.ts:416-444 | which slot is written, with which revision, and what is quarantined |
| StateStore.LoadReturnsTheStored | src/infra/webStateStore.ts:375-412 | a load answers the normalized payload of the readable slot with the highest revision, the second slot on a tie; with none, the normalized legacy copy, which is then in the first slot at revision 1; with none, the initial value; and an error exactly on a newer schema |
| StateStore.PersistSucceedsIff | src/infra/webStateStore.ts:414-444 | a persist succeeds exactly when no slot is of a newer schema and the revision is not the last, and the stored value is then the one written |
| StateStore.TargetIsNeverNewest | src/infra/webStateStore.ts:416-444 | the slot a persist writes is never the one a load would choose, even when revisions tie |
| StateStore.CrashedPersistIsAtomic | src/infra/webStateStore.ts:416-444 | after a persist interrupted anywhere a load returns the value from before or the new one, and no revision is lost |
| StateStore.CrashedLoadKeepsValue | src/infra/webStateStore.ts:375-414 | a load interrupted anywhere, also while migrating the legacy copy, changes no later answer |
| StateStore.StoreIsARegister | src/infra/webStateStore.ts:366-444 | any run of completed and interrupted loads and persists is that of an atomic register, with strictly increasing revisions |
| StateStore.FutureIsNeverAltered | src/infra/webStateStore.ts:236-290 | the stored text of a slot or legacy copy of a newer schema is the same after any run |
| StateLock.LockTable.Enter | src/infra/webStateStore.ts:316-324 | an arrival waits for the tail of its name and becomes the tail |
| StateLock.LockTable.Leave | src/infra/webStateStore.ts:326-334 | a finished operation drops the tail only if the tail is its own |
| StateLock.FirstComeOneAtATime | src/infra/webStateStore.ts:316-334 | for any arrivals, starts and ends, per name at most one operation runs, and they start in the order of arrival |
| StateLock.TailDroppedIffIdle | src/infra/webStateStore.ts:316-334 | there is no tail for a name exactly when no operation of that name waits or runs |
| StateLock.FirstWaitingCanStart | src/infra/webStateStore.ts:316-334 | nobody waits for ever: if none runs, the first waiting operation can start |
| StateLock.EveryRequestCanFinish | src/infra/webStateStore.ts:316-334 | from every reachable state all requests can be brought to their end, and then no name is kept any more |
| TableScanner.HasTableDelimiterPipe | crates/kmark-core/src/table_format.rs:551-579 | the loop with its code-span state finds whether there is a delimiter pipe |
| TableScanner.SpansAreSkipped | crates/kmark-core/src/table_format.rs:507-579 | outside code spans an unescaped run of backticks is passed over up to the first whole run of as many, or to the end of the line if there is none; an unescaped pipe is where the scan stops |
| TableScanner.SplitTableCells | crates/kmark-core/src/table_format.rs:507-549 | the loop that cuts cells gives the pieces between delimiter pipes, trimmed, without the empty boundary cells |
| TableScanner.SeekThrough | crates/kmark-core/src/table_format.rs:507-549 | scanning a text followed by another is scanning the first and going on with the code span it leaves open |
| TableScanner.SeekPadded | crates/kmark-core/src/table_format.rs:507-549 | padding a text moves its delimiter pipes and changes nothing else about the scan |
| TableScanner.TrimPadded | crates/kmark-core/src/table_format.rs:596-598 | trimming takes exactly the padding off |
| TableFormat.RenderReads | crates/kmark-core/src/table_format.rs:273-319 | the rendered table parses to the same cells, filled up to all columns, with the inferred alignments explicit |
| TableFormat.SquaredIsStable | crates/kmark-core/src/table_format.rs:722-784 | alignments and widths are inferred the same again from the rendered table |
| TableFormat.SeparatorCellReads | crates/kmark-core/src/table_format.rs:639-665 | every written separator cell parses back to its alignment |
| TableFormat.OpenRowGrows | crates/kmark-core/src/table_format.rs:507-549 | a row that ends inside a code span reads back with a strictly longer last cell |
| TableTheorems.FormatTwiceIff | crates/kmark-core/src/table_format.rs:273-319 | for one table a second pass changes nothing exactly when every row ends outside a code span |
| TableTheorems.ClosedFormatsOnce | crates/kmark-core/src/table_format.rs:679-710 | and then the second pass reports no ragged row |
| TableTheorems.ParsedIsFormatted | crates/kmark-core/src/table_format.rs:273-319 | formatting succeeds exactly when the separator row parses; the "no columns" error is unreachable |
| TableTheorems.PipesLineUp | crates/kmark-core/src/table_format.rs:756-870 | in every parsed table, with an additive width and tab-free cells, the delimiter pipes of every line stand on the grid of the column widths: on all of it exactly if the line ends outside a code span, and otherwise up to the cell that is open |
| TableTheorems.PaddingIsPlaced | crates/kmark-core/src/table_format.rs:808-828 | padding stands before, after or on both sides of the cell as the alignment says, and fills the column exactly |
| TableTheorems.AlignmentReadsBack | crates/kmark-core/src/table_format.rs:722-754 | the separator cell of each formatted column reads back as the input's explicit alignment; without one, as right exactly when inference is on, there is a row, and every row has a numeric cell there; and as the default otherwise |
| TableTheorems.SeparatorCellShapes | crates/kmark-core/src/table_format.rs:639-665 | a separator cell starts or ends with a colon exactly as its alignment says, with hyphens between |
| TableTheorems.CellsStandWhereAligned | crates/kmark-core/src/table_format.rs:808-828 | each cell is padded on the side that the alignment read back from the separator asks for |
| TableTheorems.WidthIsTight | crates/kmark-core/src/table_format.rs:756-784 | a column is as wide as its widest cell or as its separator needs, and no wider |
| TableTheorems.SeparatorFillsTheColumn | crates/kmark-core/src/table_format.rs:777-784 | the separator cell is as wide as its column and has at least the hyphens asked for and three, and no more where no cell is as wide as the column |
| TableTheorems.MismatchesExact | crates/kmark-core/src/table_format.rs:679-720 | exactly the lines with another number of cells than columns are reported, with line and both numbers |
| SourceLines.SplitSourceLines | crates/kmark-core/src/table_format.rs:321-374 | the loop over LF, CRLF and CR cuts the text into lines with their endings |
| SourceLines.JoinSplit | crates/kmark-core/src/table_format.rs:321-379 | nothing is lost by cutting into lines |
| SourceLines.SplitJoin | crates/kmark-core/src/table_format.rs:321-379 | lines put together are cut at the same places again, unless the breaks of two of them join |
| SourceLines.JoiningShrinks | crates/kmark-core/src/table_format.rs:321-379 | and if some join, there are fewer lines |
| TableDocument.FenceIndentation | crates/kmark-core/src/table_format.rs:414-466 | a line of spaces and three backticks opens a fence exactly up to four spaces |
| TablePlaces.OpensWhenItLooksSo | crates/kmark-core/src/table_format.rs:414-428 | a line opens a fence exactly when it is up to four spaces and then three or more equal markers, all of which are counted |
| TablePlaces.ClosesWhenItLooksSo | crates/kmark-core/src/table_format.rs:430-447 | a line closes a fence exactly when it is up to four spaces, at least as many markers as opened it, and only spaces and tabs |
| TablePlaces.TablesAreWhereTheyLookSo | crates/kmark-core/src/table_format.rs:124-213 | the text is cut into tables and other lines by the look of its lines: wherever a header, a separator and rows start outside a code fence and outside an earlier table, all of them up to a line that is no row are one table, and there is no other |
| TableDocument.CollectTableEnd | crates/kmark-core/src/table_format.rs:489-505 | the loop stops at the first line that ends the table |
| TableDocument.PushFormattedTableBlock | crates/kmark-core/src/table_format.rs:381-412 | the rows are written with the table's own line ending, the last one only if it had one |
| TableDocumentTheorems.EndingsAreKept | crates/kmark-core/src/table_format.rs:381-412 | a table with one kind of line ending keeps the ending of each of its lines |
| TableDocument.FormatMarkdownTablesWithFilter | crates/kmark-core/src/table_format.rs:124-213 | the loop over lines with fence state writes the formatted text and collects the reports |
| TableDocument.FormatMarkdownTablesInLineRanges | crates/kmark-core/src/table_format.rs:105-122 | no ranges means no change; otherwise the tables that meet a range |
| TableDocumentTheorems.SegmentsCover | crates/kmark-core/src/table_format.rs:124-213 | the text is its lines outside tables and its tables, put together |
| TableDocumentTheorems.FormatIsSegmentwise | crates/kmark-core/src/table_format.rs:124-213 | formatting works table by table: the rest is reproduced as it was, and where tables start and end does not depend on the filter |
| TableDocumentTheorems.RangesFormatTheirTables | crates/kmark-core/src/table_format.rs:105-122 | formatting in line ranges changes exactly the tables that meet a range, each as full formatting would |
| TableDocumentTheorems.IntersectsIff | crates/kmark-core/src/table_format.rs:215-224 | the range test holds exactly when range and table have a line in common, whichever way round the range is given |
| TableDocumentTheorems.SegmentsAgain | crates/kmark-core/src/table_format.rs:468-505 | the output has the same tables at the same lines: no line before or after a formatted table joins it |
| TableDocumentTheorems.FormatAllTwiceIff | crates/kmark-core/src/table_format.rs:124-213 | for every text: formatting all tables twice is formatting them once exactly when all their rows end outside code spans and no table swallows a blank line |
| TableDocumentTheorems.FormatDocumentTwiceIff | crates/kmark-core/src/table_format.rs:124-213 | for any filter, when no formatted table swallows a blank line: formatting twice is formatting once exactly when every formatted table has all rows end outside code spans |
| TableDocumentTheorems.BlanksAreKept | crates/kmark-core/src/table_format.rs:381-412 | no blank line is swallowed without a bare CR, nor when endings are not preserved |
| TableDocumentTheorems.BlankIsSwallowed | crates/kmark-core/src/table_format.rs:381-412 | a text whose table ends in a bare CR before a blank line, and that a second pass changes |
| TableDocumentTheorems.OpenRowsNeverSettle | crates/kmark-core/src/table_format.rs:124-213 | a text with an open row in a formatted table is changed by every pass, however many came before |
| TableDocumentTheorems.OpenRowNeverSettles | crates/kmark-core/src/table_format.rs:124-213 | a text of one table that every pass changes |
| TableDocumentTheorems.SecondPassIsClean | crates/kmark-core/src/table_format.rs:124-213 | and then the second pass reports nothing and finds the formatted tables in place |
| SvgEvents.CountersFilter | crates/kmark-core/src/generated_svg.rs:79-219 | on the events of any tree the depth counters act on exactly the events of the recursively filtered tree, in order, and come back to where they were |
| SvgEvents.ForeignDepthIsAtMostOne | crates/kmark-core/src/generated_svg.rs:934-939 | whatever the events, at most one foreign object is open |
| SvgEvents.LocalIsBehindTheColon | crates/kmark-core/src/generated_svg.rs:1046-1050 | a name counts without its prefix and in small letters |
| SvgEvents.VisitedIsBalanced | crates/kmark-core/src/generated_svg.rs:286-463 | the events that are acted on are balanced |
| SvgIds.FirstExpandedIsKept | crates/kmark-core/src/generated_svg.rs:230-284 | an id stays with its first expanded element, or with its first element if none is expanded |
| SvgIds.IdsAreNumberedInOrder | crates/kmark-core/src/generated_svg.rs:230-284 | the new ids are numbered from one on in the order in which the old ones first occur, and an id of the root becomes the root's |
| SvgIds.IdsAreDistinctAndComplete | crates/kmark-core/src/generated_svg.rs:230-284 | the ids given out are distinct, none is the root's, and every renamed id has its carrier |
| SvgRewrite.CollectElementId | crates/kmark-core/src/generated_svg.rs:230-284 | the loop over attributes collects the id occurrences in order |
| SvgRewrite.InspectSvg | crates/kmark-core/src/generated_svg.rs:79-219 | the first pass with its counters gives the id plan or the first error |
| SvgRewrite.SanitizeHref | crates/kmark-core/src/generated_svg.rs:634-662 | a link to a renamed id becomes the link to its new id, on every element; any other link is kept as it is or refused, and a kept fragment is on an `a` |
| SvgReferences.RewriteFragmentUrls | crates/kmark-core/src/generated_svg.rs:822-874 | the loop over `url(...)` with its quotes moves every reference or refuses |
| SvgReferences.UrlsAreMoved | crates/kmark-core/src/generated_svg.rs:822-874 | every reference in an accepted value is moved and every text between stays, and this is what reads back exactly when the addresses that are kept need no quotes |
| SvgReferences.AcceptedValueIff | crates/kmark-core/src/generated_svg.rs:822-874 | a value is accepted exactly when every `url(` is closed, every reference is to an id of the SVG or to an allowed address, and what is written holds no forbidden word |
| SvgReferences.AllowedExactlyWhen | crates/kmark-core/src/generated_svg.rs:972-1011 | an address is allowed exactly when it is an inline picture of one of four kinds, or an https address on a listed host, in any case and with the default port or none |
| SvgReferences.ReadWrite | crates/kmark-core/src/generated_svg.rs:822-874 | what is written without quotes reads back exactly when each reference closes where it ends and has nothing to trim |
| SvgReferences.QuotesAreMissed | crates/kmark-core/src/generated_svg.rs:836-866 | every allowed address with a parenthesis is one reference in quotes, and what is written for it without them reads as something else |
| SvgReferences.AllowedWithParenthesis | crates/kmark-core/src/generated_svg.rs:972-1011 | two such addresses: one on a listed host, and a picture in the address, which is allowed under any list |
| SvgReferences.LabelsAreMoved | crates/kmark-core/src/generated_svg.rs:563-573 | a label list becomes, word by word, the new ids of the words that are ids |
| SvgRewrite.RewriteStartTag | crates/kmark-core/src/generated_svg.rs:499-632 | the attributes written for a tag, and the id counts after it |
| SvgRewrite.RewriteSvg | crates/kmark-core/src/generated_svg.rs:286-463 | the second pass with its counters and style buffer writes the events or the first error |
| SvgAcceptance.AcceptedExactlyWhen | crates/kmark-core/src/generated_svg.rs:53-463 | an SVG is accepted exactly when the render id can be used, the document is one `svg` element, and in the filtered tree every tag, entity and style sheet is fine, each said without the passes |
| SvgAcceptance.InspectedIsNested | crates/kmark-core/src/generated_svg.rs:79-219 | the first pass refuses every stream of events that is not nested or holds something forbidden or malformed |
| SvgTexts.OutputShowsTheTree | crates/kmark-core/src/generated_svg.rs:286-463 | in every accepted SVG the tags and the characters between them are those of the filtered tree in their order, with references resolved; the characters of a style element make its sheet, and it is exactly all of them where no style element stands in another |
| SvgTexts.NestedStyleForgets | crates/kmark-core/src/generated_svg.rs:344-347 | a style element in a style element makes the outer one lose its text so far, and what follows is written as it stands |
| SvgTags.OutputTagsAreDressed | crates/kmark-core/src/generated_svg.rs:499-632 | in every accepted SVG no tag is one that runs or loads anything, no attribute is a handler or leads to an address that is not allowed, styles and labels are those of the input rewritten, and the root has its id, marker, role and aspect ratio once each |
| SvgTags.FilteredForeignHoldsText | crates/kmark-core/src/generated_svg.rs:79-219 | in the filtered tree a foreign object holds nothing but text elements |
| SvgTags.FilteredOutExactlyWhen | crates/kmark-core/src/generated_svg.rs:909-939 | an element is filtered out exactly when it is active, or in a foreign object and no text element |
| SvgTheorems.IdsOfOutput | crates/kmark-core/src/generated_svg.rs:529-554 | in every accepted SVG all ids are distinct, every id that something was renamed to is there, and there is no other but the root's |
| SvgLinks.TagsAreKept | crates/kmark-core/src/generated_svg.rs:499-632 | the opening tags of the output are those acted on, one for one, with their links and values moved in order, and the renamed ids are exactly the ids of those tags |
| SvgLinks.IdsMoveWithTheirTags | crates/kmark-core/src/generated_svg.rs:529-554 | the new id of `v` is on the tag written for the first element with id `v` that is not self-closing (or the first at all), and on no other |
| SvgLinks.LinksKeepTheirTargets | crates/kmark-core/src/generated_svg.rs:634-662 | the reference graph is kept: a link to an id of the filtered tree leads, in the output, to the one tag written for that id's element |
| SvgLinks.UrlsKeepTheirTargets | crates/kmark-core/src/generated_svg.rs:822-874 | the same for every `url(#...)` in a value whose kept addresses need no quotes |
| SvgLinks.FragmentsHaveTargets | crates/kmark-core/src/generated_svg.rs:634-662 | a fragment link of the output was one before: it leads to an id of the output if it named an id, and otherwise it is on an `a` and unchanged |
| SvgLinks.KeptFragmentIsCapturedIff | crates/kmark-core/src/generated_svg.rs:640-649 | a kept fragment, which named no id before, names one of the output exactly when it is the root's id or one of the new ones |
| SvgLinks.LinkIsCaptured | crates/kmark-core/src/generated_svg.rs:640-649 | an input whose link named nothing and leads to the root afterwards |
| SvgTheorems.OutputIsFilteredTree | crates/kmark-core/src/generated_svg.rs:286-463 | on any tree both passes act on the filtered tree, and the output has its tags in its order and is balanced |
| MathSyntax.GrammaticalIsProper | crates/kmark-core/src/math_render.rs:266-277 | no accepted text stands for a row of one, an empty script, fraction part, radicand or degree, or an empty matrix |
| MathSyntax.WordsMean | crates/kmark-core/src/math_render.rs:355-403 | what each command without arguments stands for: two spaces, the names and signs of the tables, and nothing for a command with arguments |
| MathSyntax.EscapesMean | crates/kmark-core/src/math_render.rs:405-421 | what each escaped character stands for |
| MathSyntax.DelimitersMean | crates/kmark-core/src/math_render.rs:810-835 | which characters and words are delimiters, and of what |
| MathSoundness.SequenceSound | crates/kmark-core/src/math_render.rs:299-319 | whatever a sequence reads is spelled by the grammar and stands for the tree it gives |
| MathSoundness.AtomSound | crates/kmark-core/src/math_render.rs:321-353 | an atom's text is a literal, a group or a command that stands for its tree |
| MathSoundness.ScriptsSound | crates/kmark-core/src/math_render.rs:423-460 | at most one script of each kind, in any order, each standing in its own place |
| MathSoundness.GroupSound | crates/kmark-core/src/math_render.rs:472-499 | a braced group is not empty and stands for what is between the braces |
| MathSoundness.FracSound | crates/kmark-core/src/math_render.rs:363-371 | the first group of a fraction is its numerator, the second its denominator |
| MathSoundness.RootSound | crates/kmark-core/src/math_render.rs:374-382 | a bracketed group is the degree of a root, the braced one its radicand |
| MathSoundness.LeftRightSound | crates/kmark-core/src/math_render.rs:530-553 | the delimiters after `\left` and `\right` enclose the sequence between them |
| MathSoundness.RowsSound | crates/kmark-core/src/math_render.rs:566-606 | every cell of a matrix stands in its row and column |
| MathSoundness.DocumentSound | crates/kmark-core/src/math_render.rs:284-297 | an accepted input is spelled by the grammar from its first to its last character and stands for its tree, which is in normal form and not empty |
| MathCompleteness.LiteralIsRead | crates/kmark-core/src/math_render.rs:321-353 | a number, letter, operator or command word that is as long as what follows allows is read as it stands |
| MathCompleteness.SequenceIsRead | crates/kmark-core/src/math_render.rs:299-319 | a sequence of the grammar whose tokens are as long as can be, and none of which ends it early, is read up to what ends it, as what it stands for |
| MathCompleteness.AtomIsRead | crates/kmark-core/src/math_render.rs:321-353 | the same for every atom: literals, groups, fractions, roots, fences, matrices |
| MathCompleteness.RowsAreRead | crates/kmark-core/src/math_render.rs:566-606 | the same for a matrix from any cell on, up to its end |
| MathCompleteness.DocumentIsRead | crates/kmark-core/src/math_render.rs:284-297 | every non-empty text of the grammar whose tokens are as long as can be is accepted, as the tree it stands for |
| MathCompleteness.MeaningIsUnique | crates/kmark-core/src/math_render.rs:284-297 | and it stands for no other tree |
| MathParsers.MathParser.SkipWhitespace | crates/kmark-core/src/math_render.rs:789-793 | the loop stops at the first other character |
| MathParsers.MathParser.ReadCommand | crates/kmark-core/src/math_render.rs:725-753 | a line break, a symbol or the longest word after the backslash, or the error |
| MathParsers.MathParser.ReadNumber | crates/kmark-core/src/math_render.rs:755-775 | the longest run of digits with at most one dot |
| MathParsers.MathParser.ParseSequence | crates/kmark-core/src/math_render.rs:299-319 | terminates on every input, with the tree, the stop and the cursor of the specification, or its error |
| MathParsers.MathParser.ParseAtom | crates/kmark-core/src/math_render.rs:321-353 | the same for an atom |
| MathParsers.MathParser.ParseCommandAtom | crates/kmark-core/src/math_render.rs:355-421 | the same for every command with its arguments |
| MathParsers.MathParser.ParseScripts | crates/kmark-core/src/math_render.rs:423-460 | the same for the loop over scripts |
| MathParsers.MathParser.ParseLeftRightGroup | crates/kmark-core/src/math_render.rs:530-553 | the same for `\left` and `\right` |
| MathParsers.MathParser.ParseMatrixEnvironment | crates/kmark-core/src/math_render.rs:566-606 | the same for the loop over cells and rows |
| MathParsers.MathParser.ParseDocument | crates/kmark-core/src/math_render.rs:284-297 | the tree or the error of the whole input; success only with the cursor at the end |
| MathRender.RenderMathSource | crates/kmark-core/src/math_render.rs:135-139 | the rendering of what the source stands for, or the parser's error |
| MathRender.EscapeHtml | crates/kmark-core/src/math_render.rs:956-967 | the loop escapes every character |
| MathRender.UnescapeEscape | crates/kmark-core/src/math_render.rs:956-983 | escaping loses nothing: reading the entities back gives the text |
| MathRender.EscapedIsInert | crates/kmark-core/src/math_render.rs:956-967 | an escaped text has no angle bracket and no quote left |
| MathRender.RenderingReadsBack | crates/kmark-core/src/math_render.rs:155-256 | whatever the tree, reading the rendering by what the MathML elements mean gives the layout of the tree: which part is above, below, beside or under a root, which row and cell, and every text |
| MathRender.RenderingIsBalancedAndEscaped | crates/kmark-core/src/math_render.rs:155-256 | whatever the tree, reading the rendering back gives balanced tags and, between them, exactly the texts of the tree, escaped |

## Left out

- EditorTransactions.ApplyTransaction: offsets are unbounded numbers, so `OffsetOverflow` and platforms whose `usize` is narrower than 64 bits are not modelled.
- EditorTransactions.Rope: a rope is a sequence of scalars; its tree and chunk boundaries are not modelled (chunks are arbitrary in `LineEndings.WriteTo`).
- SessionEffects.ProposalIsMadeExactlyWhen: asks that an id is left, as `OpenTakesEffect` does; with a saturated counter the newest id is given again.
- SessionTheorems.ReachableInv: steps that take a new id require that the id counter has not reached the largest 64-bit number, where the source's counter stops advancing.
- Sessions.Open: attaching and detaching windows, accepting a new document, and file events are represented by opening a session and by file names as parameters.
- Sessions.Proposal: the unified diff is the pair of texts it was computed from; ids are the counter's numbers, since formatting them is injective.
- Sessions.FinishCommit: what the file system did (new name, path and fingerprint) is a parameter.
- The preview render cache is the revision it was made from; nothing is said about patches.
- StateStore.Load: a failing write during legacy migration is not modelled, nor are quarantined copies and their pruning, the broadcast after a persist, or a failed verification other than a crash.
- StateStore.Idempotent: `normalize` is a parameter assumed idempotent.
- TableFormat.IsSane: display width and "looks like a number" are given measures; the empty text has width 0 and is no number. The tab stops of `visual_width` are outside the additive measure of `TableTheorems.PipesLineUp`.
- TableDocumentTheorems.FormatDocumentTwiceIff: for a filter that leaves tables out it speaks of texts in which no formatted table swallows a blank line; `TableDocumentTheorems.FormatAllTwiceIff` covers every text.
- `format_table_block` (one table given as text) uses the same functions and is not modelled.
- SvgRewrite.Rules: style sheets and style attributes are rewritten by given functions of the text and the id map; the size limit and attribute decoding errors are not modelled.
- SvgLinks.UrlsKeepTheirTargets: speaks of values whose kept addresses need no quotes; `SvgReferences.UrlsAreMoved` shows that exactly those read back as meant.
- SvgReferences.LabelsAreMoved: is about the value of a label list; a list without a known id is dropped with its attribute.
- SvgEvents.Event: tokenizing XML is the reader's; a mismatched closing tag is its error.
- MathSyntax.Lexicon: the tables of Greek letters, operators and function names, and which characters are letters, are parameters.
- MathSoundness.DocumentSound: does not say that the spelling it finds has its words and numbers as long as can be, which is what `MathCompleteness.DocumentIsRead` asks for in the other direction.
- `render_math_html` around one source (labels, error boxes, lines of display math) is not modelled.
- PlantUML slicing, multi-cursor wrapping, preferences, recent files, themes, transports, authentication and user interface: they would add mostly easy members, or are plumbing.
