# Verification of the semantic contract tools

A Dafny model of the algorithms a semantic contract goes through: the independent
IR reader (`crates/semantic-ir`), the owner and refusal pass and the writing of a
lift (`crates/extraction-frontend`), the preparation of JSON Schema for the Python
generator (`python_backend`) and the checks of the Python conformance adapter. Each
algorithm is written as the source writes it (explicit stacks, loops, fields that
change) and proved against a short recursive or declarative specification; the laws
the system promises are then proved of that specification, for every input.

What is modelled, file by file:

- `Graphs`, `SupertypeCycles`, `Supertypes`: the generalization graph of a document,
  the iterative strongly-connected-components pass that finds the types on a
  supertype cycle, the transitive supertypes of a type, and the rule that keeps a
  redefined feature within the bounds of the feature it redefines.
- `Json`, `Grammar`, `Reader`, `ReaderGrammar`, `JsonWalks`: JSON values that keep
  lexemes, member order and repeated members; the grammar of RFC 8259 (sections 2 to
  7) as a relation between ranges of a text and values; the reader with its stack of
  open containers and its two limits; cloning and comparing without recursion.
- `Numbers`, `Members`, `Canonical`, `CanonicalLaws`: ECMAScript number layout, the
  last member of each name, UTF-16 member order, the writer with its explicit work
  list, and what the canonical form of RFC 8785 distinguishes.
- `ShortestText`: the canonical text as the one shortest text of its value.
- `Normalize`, `NormalizeLaws`, `NodeOrder`: the normalized form of an IR document and
  the order of its identity-keyed sets.
- `Pointers`, `Patch`, `PatchLaws`: RFC 6901 pointers and RFC 6902 patches with the
  `x-repeat` operation.
- `Compat`, `Verdicts`, `CompatLaws`: the compatibility classifier, its verdict said of
  the two documents alone, and the law that relates a chain of releases to its ends.
- `Owners`, `OwnerLaws`, `OwnerVerdicts`: the fixed point that assigns owners and refuses
  artifacts, and which artifacts those are.
- `Regex262`, `PatternGrammar`: the recogniser of ECMA-262 patterns and the grammar of
  what it accepts, as a relation between ranges of a text and phrases.
- `Schemas`, `Prepare`, `PrepareLaws`, `Expansion`, `Rewrites`: JSON Schema for the
  keywords the preparation pass walks or rewrites, the pass, the proof of which verdicts
  it keeps, and when it rewrites what.
- `BackEdges`, `Aliases`, `Collapse`: the dependency search, the alias walk and the
  folding of failing locations of the Python adapter.
- `WriteLift`: the write protocol over a file system whose steps may fail or stop.

## Assumptions

- Binary64 arithmetic and the choice of shortest digits are parameters. What is asked
  of them is stated once: `CanonicalLaws.Faithful` (shortest digits are well formed, a
  rendered number stays finite, and re-reading a rendered number and rendering it
  again gives the same text) and `CompatLaws.Reads` (numbers of equal rendering are
  equal, and rounding an integer keeps order).
- Keywords of JSON Schema outside the rewrite are an oracle that sees only the
  keyword's own value and the instance (`Schemas.Oracle`).
- `Document::resolve` (crates/semantic-ir/src/rules.rs:815) is a function from a
  reference to an identity in the classifier.

## Where the code falls short of its promise

For each there is a lemma with an input that shows it and a lemma that says exactly
when the promise is kept.

- Two moves of a release do not show in its steps. A float bound can hide a bound that
  tightens between two integers past 2^53 (`CompatLaws.FloatHidesMove` for a
  constraint, `CompatLaws.ReleasesHideMove` for three releases), and a field added under
  a consumer policy that tolerates it is conditional once the policy is withdrawn
  (`CompatLaws.PolicyWithdrawn`). The ends of a chain of releases are classified at most
  as strictly as its steps exactly when neither happens or a step is conditional
  already (`CompatLaws.Triangle`; `CompatLaws.TypeChain` for one type,
  `CompatLaws.ConstraintChain` for one constraint).
- The owner pass never clears an owner it assigned, so an optional owner can name a
  refused artifact (`OwnerLaws.StaleOwner`). It does exactly when in some round the
  pass comes to the branch that keeps a stale owner for an artifact that no later round
  refuses (`OwnerLaws.OwnersSurviveFires`); coming to it for one that is refused later
  breaks nothing (`OwnerLaws.FiresInVain`). No owner is lost where no artifact that may
  lack an owner has a container in the input (`OwnerLaws.NoneLost`).
- Beside a keyword that applies subschemas in place, restating
  `unevaluatedProperties` as `additionalProperties` can refuse instances the schema
  accepts (`PrepareLaws.ApplicatorBeside`). The prepared schema accepts exactly the
  accepted instances whose members are named by the schema's own property keywords or
  accepted by the closure (`PrepareLaws.PrepareExact`), so it keeps every verdict
  exactly when all accepted instances are such (`PrepareLaws.PreparePreservesIff`), as
  where subschemas applied in place name only properties the schema names too
  (`PrepareLaws.PrepareCovered`).
- With the diagnostics path equal to the document's temporary, a lift reports success
  and leaves the diagnostics in the document's place (`WriteLift.FreshRun`); with the
  document path equal to the temporary of the diagnostics, the diagnostics stand in the
  document's place on the way (`WriteLift.LiftTouches`). `check_output` refuses
  neither. Of two different paths the promise is kept exactly when neither is the
  other's temporary (`WriteLift.ApartExact`, `WriteLift.BlockedExact`).
- `remove` forgets a member that `add` replaced, and cannot remove through the dash of
  an array what `add` appended (`PatchLaws.RemoveForgets`); it undoes `add` exactly
  otherwise (`PatchLaws.RemoveUndoes`).
- Two accepted patterns can concatenate to one that is refused
  (`Regex262.ConcatenationFails`). The concatenation is accepted exactly when no
  quantifier of the first swallows a part of the second, or what it leaves of the
  second is accepted (`Regex262.Concatenation`); so it is where the first holds no
  opening brace and the second does not begin with one
  (`Regex262.BracelessConcatenation`).

## Model

| member | source | states |
|---|---|---|
| SupertypeCycles.TypesOnACycle | crates/semantic-ir/src/constructs.rs:669-736 | the pass returns exactly the positions that reach themselves by a non-empty supertype path, stepping at every position once per edge and once to close it |
| SupertypeCycles.Pass.TakeEdge | crates/semantic-ir/src/constructs.rs:698-714 | taking the next edge keeps the whole invariant of the pass and is one step |
| SupertypeCycles.Pass.CloseFrame | crates/semantic-ir/src/constructs.rs:715-732 | closing a frame, and the component it roots, keeps the invariant and is one step |
| SupertypeCycles.PopComponent | crates/semantic-ir/src/constructs.rs:719-727 | popping up to the root takes exactly the members above it off the stack |
| SupertypeCycles.PushInv | crates/semantic-ir/src/constructs.rs:704-711 | opening an unseen position keeps reachability, lowpoint and stack facts |
| SupertypeCycles.TakeStacked | crates/semantic-ir/src/constructs.rs:711-713 | lowering by the order of a stacked target keeps the lowpoints sound and complete |
| SupertypeCycles.CloseRoot | crates/semantic-ir/src/constructs.rs:719-731 | a position whose low is its own order roots a whole component, decided correctly when it leaves the stack |
| Graphs.CycleByEdge | crates/semantic-ir/src/constructs.rs:664-668 | being on a cycle is having an edge to something that leads back |
| Supertypes.SupertypeCycle | crates/semantic-ir/src/constructs.rs:669-680 | on the graph read from a document the pass finds its cyclic types, and none exactly when the generalization graph is acyclic |
| Supertypes.Ancestors | crates/semantic-ir/src/constructs.rs:349-366 | each declared transitive supertype other than the type itself, exactly once, and nothing else |
| Supertypes.FeatureRefusals | crates/semantic-ir/src/constructs.rs:738-843 | nothing is refused of a type exactly when each name it subsets is that of a strict supertype's feature and each of its redefinitions names one whose bounds contain its own; an unresolved name is refused as such, a redefinition out of bounds as invalid, and nothing else of any feature |
| Supertypes.DocumentRefusals | crates/semantic-ir/src/constructs.rs:208-218 | over all types the rule refuses nothing exactly when every redefinition of the document is sound and every subset resolves, and of each feature exactly what is refused of it |
| Supertypes.NarrowsIsInclusion | crates/semantic-ir/src/constructs.rs:849-871 | bounds that allow something narrow others exactly when those allow every count they do |
| Supertypes.WithinMeans | crates/semantic-ir/src/constructs.rs:815-871 | a field keeps to the one it redefines when every count its multiplicity takes at one end that one takes too; an operation by what it returns, both returning or neither |
| Supertypes.GraphMeans | crates/semantic-ir/src/constructs.rs:669-680 | an edge leads to the first type of a name listed under `supertypes`; features are what `fields` or `operations` lists and subsets what `subsets` lists |
| Supertypes.RedefinitionStep | crates/semantic-ir/src/constructs.rs:768-786 | where the rule refuses nothing, a redefinition leads to a strict supertype and to wider bounds |
| Supertypes.ChainsEnd | crates/semantic-ir/src/constructs.rs:794-843 | in an acyclic document the rules refuse nothing of, chains of redefinitions of fields or of operations are finite and the first bounds lie within every later one's |
| ReaderGrammar.ReadsTheGrammar | crates/semantic-ir/src/json.rs:522-617 | the reader accepts a text with a value exactly when the grammar derives that value from the whole text |
| ReaderGrammar.OneValue | crates/semantic-ir/src/json.rs:432-459 | a text has at most one value |
| ReaderGrammar.DepthLimit | crates/semantic-ir/src/json.rs:522-563 | with depth limit d an accepted text gives the same value if every value is enclosed by at most d containers, and the typed depth error otherwise |
| ReaderGrammar.CharsSound | crates/semantic-ir/src/json.rs:663-741 | what the string reader accepts is spelled by the grammar, surrogate pairs combined |
| ReaderGrammar.CharsComplete | crates/semantic-ir/src/json.rs:663-741 | every string the grammar spells is read, with the same text |
| ReaderGrammar.NumberSound | crates/semantic-ir/src/json.rs:619-661 | a number that is read is a number lexeme of the finite domain |
| ReaderGrammar.NumberComplete | crates/semantic-ir/src/json.rs:619-661 | every finite number lexeme is read whole |
| Reader.ParseWith | crates/semantic-ir/src/json.rs:441-459 | the reader with its stack of open containers gives the value, or the error kind and offset, of the recursive reading under both limits |
| Reader.Reader.Document | crates/semantic-ir/src/json.rs:522-617 | the loop over the open containers equals recursive descent, errors and offsets included |
| Reader.Reader.Attach | crates/semantic-ir/src/json.rs:571-616 | a finished value is attached to the containers that it closes, or asks for the next one |
| Reader.Reader.NumberToken | crates/semantic-ir/src/json.rs:619-661 | the scan of a number ends where the lexeme does, or fails at the same position |
| Reader.Reader.StringToken | crates/semantic-ir/src/json.rs:663-741 | the scan of a string equals the recursive reading of its units |
| Reader.Reader.HexFour | crates/semantic-ir/src/json.rs:743-761 | four hexadecimal digits, or the position of the first character that is none |
| Reader.Reader.MemberName | crates/semantic-ir/src/json.rs:507-520 | a member name and its colon, or the position where they fail |
| JsonWalks.Clone | crates/semantic-ir/src/json.rs:126-169 | a clone made over an explicit stack equals its value |
| JsonWalks.Equal | crates/semantic-ir/src/json.rs:171-198 | the comparison over a stack of pairs decides equality, order and repeated members included |
| Numbers.Layout | crates/semantic-ir/src/number.rs:63-102 | the loops lay the digits out as the four cases of Number::toString prescribe |
| Numbers.LayoutDenotes | crates/semantic-ir/src/number.rs:63-102 | the layout is a JSON number that denotes digits times ten to n - k, with an exponent exactly when n is past 21 or at most -6 |
| Numbers.LayoutInjective | crates/semantic-ir/src/number.rs:63-102 | digits without trailing zeros and their point are determined by the text |
| Numbers.ShapedUnique | crates/semantic-ir/src/number.rs:63-102 | of a sign and an amount other than zero there is one lexeme of the shape ECMAScript prescribes (no trailing zeros; an exponent exactly from 10^21 on and below 10^-6, with a sign, a small e and a single digit before the point): the layout |
| Numbers.RenderedText | crates/semantic-ir/src/number.rs:25-61 | rendering a finite number gives a valid lexeme of its sign and amount |
| Numbers.RenderingInjective | crates/semantic-ir/src/number.rs:25-61 | finite numbers have one rendering exactly when they are one number or both zero |
| Numbers.ScanComplete | crates/semantic-ir/src/json.rs:626-655 | every lexeme followed by something that cannot continue it is scanned whole |
| Numbers.ScanSound | crates/semantic-ir/src/json.rs:626-655 | what is scanned is a lexeme and its text |
| Members.ResolvedMembers | crates/semantic-ir/src/json.rs:845-856 | the loop resolves repeated names into the first position and the last value |
| Members.ResolveWins | crates/semantic-ir/src/json.rs:845-856 | resolving keeps exactly the last member of each name, each name once |
| Members.SortAscending | crates/semantic-ir/src/json.rs:866-870 | sorted distinct names ascend strictly by UTF-16 code unit |
| Members.NameOrder | crates/semantic-ir/src/json.rs:866-870 | the UTF-16 order of names is total and strict |
| Members.NameLessMeans | crates/semantic-ir/src/json.rs:866-868 | names are ordered by the first character in which they differ, characters of two code units standing between those below the surrogates and those above them |
| Members.AscendingUnique | crates/semantic-ir/src/json.rs:866-903 | members in ascending order are determined by which members they are |
| Canonical.WriteIteratively | crates/semantic-ir/src/json.rs:872-927 | the work list writes the recursive form after what was there, and refuses exactly the values with a number to write that is not finite |
| Canonical.WriteEmit | crates/semantic-ir/src/json.rs:875-926 | one piece of work leaves the same text still to be written and writes at least a character |
| Canonical.WriteString | crates/semantic-ir/src/json.rs:765-783 | the loop writes the escaped text between quotes |
| ShortestText.QuoteDetermined | crates/semantic-ir/src/json.rs:765-783 | of all spellings of a string the written one is the shortest with lower-case hexadecimal digits, and the only such |
| ShortestText.TextDetermined | crates/semantic-ir/src/json.rs:802-927 | the canonical text is the shortest text of the canonical form with lower-case escapes, and the only such |
| Canonical.FormArrange | crates/semantic-ir/src/json.rs:893-903 | resolving and sorting members commutes with writing their values |
| CanonicalLaws.PrintIsText | crates/semantic-ir/src/json.rs:872-927 | what is printed is JSON text of the value printed |
| CanonicalLaws.ReadBack | crates/semantic-ir/src/json.rs:802-817 | the canonical text of a finite value is read back as the value with duplicates resolved, members sorted and numbers re-rendered |
| CanonicalLaws.FormTwice | crates/semantic-ir/src/json.rs:802-817 | the canonical form of a canonical form is itself |
| CanonicalLaws.CanonicalEquality | crates/semantic-ir/src/json.rs:802-827 | two finite values have equal canonical texts exactly when they agree by last members, whatever the order, and by rendered numbers |
| CanonicalLaws.SameCanonicalText | crates/semantic-ir/src/json.rs:802-817 | values that agree so are written as one text, or neither is |
| CanonicalLaws.FormOrdered | crates/semantic-ir/src/json.rs:866-903 | every object of a canonical form has strictly ascending names |
| Normalize.MaterializeIr | crates/semantic-ir/src/normalize.rs:36-65 | the loop with its flag emits one descriptor, at the first place, and materializes the types |
| Normalize.MaterializeType | crates/semantic-ir/src/normalize.rs:75-89 | the loop materializes a type's fields and operations and keeps its other members in place |
| Normalize.MaterializeField | crates/semantic-ir/src/normalize.rs:142-158 | the loop drops every authored `nullable` and appends the boolean |
| Normalize.Normalized | crates/semantic-ir/src/normalize.rs:28-34 | the text written is the canonical text of the materialized IR, or of null without one |
| NormalizeLaws.NormalizedAgain | crates/semantic-ir/src/normalize.rs:28-65 | normalized text, read back and normalized again, is the same text |
| NormalizeLaws.NormalizedSame | crates/semantic-ir/src/normalize.rs:28-34 | documents that agree by last members, whatever the order, and by rendered numbers have one normalized text |
| NormalizeLaws.OnlyNullable | crates/semantic-ir/src/normalize.rs:36-158 | every field and parameter gets a boolean `nullable`, true only for the literal, the document the descriptor of `rfc8785-v1`, and no other member changes |
| NormalizeLaws.FieldGet | crates/semantic-ir/src/normalize.rs:142-158 | a field's members under every name after materializing |
| NormalizeLaws.IrGet | crates/semantic-ir/src/normalize.rs:36-65 | an IR's members under every name after materializing |
| NodeOrder.SortNodesShuffle | crates/extraction-frontend/src/canonical.rs:51-55 | a set of distinct identities sorts to one list whatever order it is given in |
| NodeOrder.SortNodesMeans | crates/extraction-frontend/src/canonical.rs:46-55 | no node of the sorted list stands before one of an earlier identity by code point, and nodes of one identity keep their order |
| NodeOrder.DocumentIsSorted | crates/extraction-frontend/src/canonical.rs:69-102 | every identity-keyed set is sorted so; fields, parameters, members and all other values stand where and as they were |
| NodeOrder.SortedDocumentSame | crates/extraction-frontend/src/canonical.rs:69-102 | documents that differ only in the arrangement of their identity-keyed sets, in the order of members and in the spelling of numbers sort to documents that agree; fields and parameters keep their order |
| NodeOrder.SortedTextSame | crates/extraction-frontend/src/canonical.rs:123-138 | such documents are written as the same text |
| NodeOrder.Assembled.SortNodeLists | crates/extraction-frontend/src/canonical.rs:69-102 | the loops sort every set in place, type by type |
| NodeOrder.SortEach | crates/extraction-frontend/src/canonical.rs:69-96 | sorting a set and editing its nodes commute |
| Pointers.SplitChild | crates/semantic-ir/src/diag.rs:82-113 | the tokens of a child pointer are its parent's and its own, for every pointer text and every token |
| Pointers.SplitPointer | crates/semantic-ir/src/diag.rs:82-113 | a pointer built from tokens splits into them |
| Pointers.TokenRoundTrip | crates/semantic-ir/src/diag.rs:83-112 | unescaping undoes escaping |
| Pointers.TokenSpells | crates/semantic-ir/src/diag.rs:82-85 | a token is escaped character by character, the tilde as `~0` and the slash as `~1` |
| Patch.SubstituteIteratively | crates/semantic-ir/src/patch.rs:111-196 | the explicit frames substitute what structural recursion does |
| Patch.TakeChild | crates/semantic-ir/src/patch.rs:165-187 | taking a child leaves a frame that, given the child's result, completes to the same value |
| Patch.Apply | crates/semantic-ir/src/patch.rs:25-31 | the patched document is the operations applied in order, or nothing once one fails |
| Patch.Working.ApplyOne | crates/semantic-ir/src/patch.rs:33-105 | each operation changes the document in place as specified, or fails |
| Patch.Working.Insert | crates/semantic-ir/src/patch.rs:229-277 | in-place insertion, and an unchanged document on failure |
| Patch.Working.Remove | crates/semantic-ir/src/patch.rs:291-326 | in-place removal, and an unchanged document on failure |
| PatchLaws.InsertedFound | crates/semantic-ir/src/patch.rs:229-277 | what is added is found at its pointer, unless the pointer appends to an array |
| PatchLaws.InsertedApplies | crates/semantic-ir/src/patch.rs:229-277 | an addition applies at the root, at any object, and at a place up to the end of an array or its dash, and nowhere else |
| PatchLaws.InsertedApart | crates/semantic-ir/src/patch.rs:229-277 | adding leaves every path that parts from the pointer as it was, at another member or at another place of an array above the one added to |
| PatchLaws.RemovedApart | crates/semantic-ir/src/patch.rs:291-326 | so does removing |
| PatchLaws.RemovedApplies | crates/semantic-ir/src/patch.rs:291-326 | a removal applies exactly beneath the root where something is found |
| PatchLaws.InsertedShifts | crates/semantic-ir/src/patch.rs:254-271 | adding to an array shifts only the items from the index on, by one |
| PatchLaws.RemoveUndoes | crates/semantic-ir/src/patch.rs:229-326 | removing undoes adding exactly when the pointer named no member of an object, or an index of an array |
| PatchLaws.RemoveForgets | crates/semantic-ir/src/patch.rs:229-326 | a member replaced by adding is gone after removing, and the dash of an array cannot be removed |
| PatchLaws.ReplacedFound | crates/semantic-ir/src/patch.rs:280-288 | what replaces a node is found where the node was |
| PatchLaws.ReplacedApart | crates/semantic-ir/src/patch.rs:211-227 | a replacement is not seen along a path that parts from it at another member or another place |
| PatchLaws.RepeatAppends | crates/semantic-ir/src/patch.rs:91-101 | repeating at the end of an array appends the substituted copies in order |
| PatchLaws.SubstituteFills | crates/semantic-ir/src/patch.rs:125-129 | the two replacements give the text read once, with the copy for each `$i` and its successor for each `$n` |
| PatchLaws.TestMeans | crates/semantic-ir/src/patch.rs:41-51 | a test changes nothing and holds exactly where what is found is written as the value expected |
| PatchLaws.ReplaceMeans | crates/semantic-ir/src/patch.rs:57-64 | a replacement applies exactly where something is found, and puts the value there |
| PatchLaws.CopyIsAdd | crates/semantic-ir/src/patch.rs:69-78 | a copy is the addition of what is found, and fails where nothing is |
| PatchLaws.MoveIsRemoveAdd | crates/semantic-ir/src/patch.rs:79-89 | a move is the removal followed by the addition of what was found |
| PatchLaws.RepeatIsAdds | crates/semantic-ir/src/patch.rs:90-101 | a repetition of one to 512 copies is that many additions in order, and fails outside that range |
| PatchLaws.OtherRefused | crates/semantic-ir/src/patch.rs:34-38 | an operation of no name or another name fails |
| PatchLaws.ApplyInTurn | crates/semantic-ir/src/patch.rs:25-31 | a patch followed by another is both in a row |
| PatchLaws.Chain | crates/semantic-ir/src/diag.rs:119-138 | the nodes along a pointer, as far as it resolves and no further |
| Compat.ClassifyPair | crates/semantic-ir/src/compat.rs:65-110 | the report over types and extensions is the worst of every comparison, invalid where a bundle is or carries no IR |
| Verdicts.VerdictMeans | crates/semantic-ir/src/compat.rs:65-110 | the verdict is invalid where a bundle is or carries no IR, and otherwise the most restrictive class of which the two documents show a reason, the reasons stated of their members |
| Verdicts.ReasonsMean | crates/semantic-ir/src/compat.rs:80-110 | each class from additive to breaking is reached exactly when the documents show a reason of it or of a stricter one |
| Verdicts.TypeMeans | crates/semantic-ir/src/compat.rs:164-209 | the same of two definitions: kind, scalar, references, unknown policy, and what is gone, new or moved in each list |
| Verdicts.FieldMeans | crates/semantic-ir/src/compat.rs:403-461 | a field breaks by its name, resolved type, nullability, unit, order, uniqueness or a count it no longer takes; a changed default is conditional and a count it now takes additive |
| Verdicts.MoveMeans | crates/semantic-ir/src/compat.rs:259-330 | a changed constraint is additive exactly when one numeric limit under one keyword is no stricter than before, integers compared exactly where both are |
| Compat.Report.Compare | crates/semantic-ir/src/compat.rs:234-257 | one list against another: what is gone or changed, then what is new, joined to the worst so far |
| Compat.CompareTypeInto | crates/semantic-ir/src/compat.rs:164-209 | a type's head, constraints, fields, variants, positions, relationships, operations and clauses, each noted |
| CompatLaws.Triangle | crates/semantic-ir/src/compat.rs:65-110 | the ends of a chain of releases are classified at most as strictly as the stricter step exactly when a document is invalid, no type hides a tightening bound or has a tolerated field withdrawn, or a step is conditional already |
| CompatLaws.Reflexive | crates/semantic-ir/src/compat.rs:65-110 | a valid document with unique identities is a patch of itself |
| CompatLaws.ListWorst | crates/semantic-ir/src/compat.rs:234-257 | a list's verdict stays within a limit exactly when each removal, change and addition does |
| CompatLaws.ListTriangle | crates/semantic-ir/src/compat.rs:234-257 | a list compared over two steps stays within any limit the steps stay within, whenever its costs do |
| CompatLaws.IncreaseShows | crates/semantic-ir/src/compat.rs:289-303 | an increase along three bounds shows in a step, except exactly when a float hides two integers that round to it |
| CompatLaws.ConstraintChain | crates/semantic-ir/src/compat.rs:234-257 | constraint changes obey the triangle exactly where no tightening bound is hidden, equal texts and moves mixed |
| CompatLaws.MoveChain | crates/semantic-ir/src/compat.rs:305-330 | operand moves obey the triangle exactly where no tightening bound is hidden |
| CompatLaws.FieldsChain | crates/semantic-ir/src/compat.rs:356-461 | the costs of fields stay within any limit from conditional on, and within every limit unless a tolerated field is withdrawn |
| CompatLaws.FieldChain | crates/semantic-ir/src/compat.rs:403-461 | a field's changes of name, type, nullability, unit, multiplicity and default obey the triangle |
| CompatLaws.ExtensionsChain | crates/semantic-ir/src/compat.rs:112-162 | the costs of extensions stay within every limit as they become required, optional, changed or added |
| CompatLaws.OperationsChain | crates/semantic-ir/src/compat.rs:554-610 | the costs of operations stay within every limit through their parameters, results and conditions |
| CompatLaws.TypeChain | crates/semantic-ir/src/compat.rs:164-209 | two definitions compared through a third obey the triangle exactly when the steps lose nothing or are conditional already |
| CompatLaws.TypeAtMostBreaking | crates/semantic-ir/src/compat.rs:164-209 | no comparison of two types finds them invalid |
| CompatLaws.FloatHidesMove | crates/semantic-ir/src/compat.rs:296-302 | minima 2^53 as text, 2^53 as a number and 2^53 + 1 as text: each step widens, the whole tightens |
| CompatLaws.ReleasesHideMove | crates/semantic-ir/src/compat.rs:65-110 | three releases of one type with those minima: each step at most additive, the ends conditional |
| CompatLaws.PolicyWithdrawn | crates/semantic-ir/src/compat.rs:356-400 | an optional field added under a tolerant policy, then the same IR under none: additive, a patch, and conditional from end to end |
| CompatLaws.IntegersHideNothing | crates/semantic-ir/src/compat.rs:296-302 | without a float among the middle release's bounds nothing is hidden |
| Owners.AssignOwners | crates/extraction-frontend/src/constructs.rs:1272-1321 | the loop of rounds ends in the fixed point, with survivors, refusals in order and the refused identities |
| Owners.RefusalRule | crates/extraction-frontend/src/constructs.rs:1352-1484 | the rule an artifact breaks against the round's snapshot, or the artifact with its owner |
| Owners.CompositeOwners | crates/extraction-frontend/src/constructs.rs:1331-1349 | the map of composite targets to their containers, each once |
| OwnerLaws.Partition | crates/extraction-frontend/src/constructs.rs:1300-1319 | the input is partitioned into survivors and artifacts with one refusal each |
| OwnerLaws.RefusedAre | crates/extraction-frontend/src/constructs.rs:1308-1310 | the refused identities are the given ones and those of the refusals |
| OwnerLaws.SurvivorsClosed | crates/extraction-frontend/src/constructs.rs:1258-1271 | survivors' type references and source name survivors, no relationship targets a refused identity, and an owner that must be found is the one admitted surviving container |
| OwnerLaws.FoundIsContainers | crates/extraction-frontend/src/constructs.rs:1464-1477 | the containers found are exactly the artifacts with a composite relationship to it that share a role with the declared ones, or any where none are declared |
| OwnerVerdicts.SurvivesIff | crates/extraction-frontend/src/constructs.rs:1272-1321 | an artifact survives exactly when its edges, references and source hold among the survivors and, where it takes an owner, it has one container there that shares a role with the declared ones, or none and may do without |
| OwnerVerdicts.RefusalsExplained | crates/extraction-frontend/src/constructs.rs:1352-1484 | every refusal names a rule the artifact broke in its round; a containment refusal counts the containers that stood there, never one |
| OwnerVerdicts.JudgeExplained | crates/extraction-frontend/src/constructs.rs:1352-1484 | a round keeps an artifact exactly when it passes there, and otherwise refuses it for the first rule it breaks |
| OwnerVerdicts.ContainerLeft | crates/extraction-frontend/src/constructs.rs:1464-1478 | an artifact with a surviving container survives, and one that takes its owner has exactly that container in the input and names it |
| OwnerLaws.OwnerHistory | crates/extraction-frontend/src/constructs.rs:1469-1478 | a survivor's owner is its sole container in the input, or what it came with where it has none |
| OwnerLaws.OwnersSurviveIff | crates/extraction-frontend/src/constructs.rs:1469-1478 | no emitted owner names a refused artifact exactly when no survivor that may lack an owner lost the container it had |
| OwnerLaws.NoneLost | crates/extraction-frontend/src/constructs.rs:1464-1478 | where no artifact that may lack an owner has a container in the input, every emitted owner survives |
| OwnerLaws.OwnersSurviveFires | crates/extraction-frontend/src/constructs.rs:1469-1478 | every emitted owner survives exactly when the branch that keeps a stale owner is taken in no round for an artifact that survives |
| OwnerLaws.FiresInVain | crates/extraction-frontend/src/constructs.rs:1469-1478 | three artifacts for which the branch is taken and no artifact survives |
| OwnerLaws.StaleOwner | crates/extraction-frontend/src/constructs.rs:1469-1478 | two artifacts after which an emitted owner names a refused one |
| OwnerLaws.OrderIndependent | crates/extraction-frontend/src/constructs.rs:1276-1320 | permuting the artifacts permutes survivors, owners and refusals and refuses the same identities |
| OwnerLaws.GreatestClosedSet | crates/extraction-frontend/src/constructs.rs:1359-1429 | where nothing takes an owner the survivors are the greatest subset closed under the reference and relationship conditions |
| Regex262.CompilesPattern | crates/semantic-ir/src/regex262.rs:13-17 | the parser accepts exactly the patterns the recursive recogniser ends at their end |
| PatternGrammar.AcceptsTheGrammar | crates/semantic-ir/src/regex262.rs:13-194 | a pattern is accepted exactly when the declarative grammar derives it from end to end |
| PatternGrammar.QuantifierIs | crates/semantic-ir/src/regex262.rs:161-194 | where the recogniser finds a quantifier the grammar has that one, and the other way round |
| PatternGrammar.ClassIs | crates/semantic-ir/src/regex262.rs:101-124 | a class ends where the grammar's does, and nowhere else |
| PatternGrammar.SpecifierIs | crates/semantic-ir/src/regex262.rs:60-99 | what opens a group is a bare parenthesis, a lookaround, or a name in angle brackets |
| PatternGrammar.TermComplete | crates/semantic-ir/src/regex262.rs:54-159 | every term of the grammar is read, a quantifier exactly where one may follow |
| Regex262.Parser.ReadDisjunction | crates/semantic-ir/src/regex262.rs:29-40 | a disjunction's end, or failure |
| Regex262.Parser.ReadAtom | crates/semantic-ir/src/regex262.rs:54-149 | an atom's end and whether a quantifier may follow, or failure |
| Regex262.Parser.ReadQuantifier | crates/semantic-ir/src/regex262.rs:161-194 | past a quantifier, or back where braces are none |
| Regex262.Term | crates/semantic-ir/src/regex262.rs:54-159 | every accepted term consumes input |
| Regex262.DisjunctionWithin | crates/semantic-ir/src/regex262.rs:29-52 | a pattern parses inside a text, before its end, a bar or a closing parenthesis, as it does alone |
| Regex262.GroupCompiles | crates/semantic-ir/src/regex262.rs:60-99 | a group, named or not, or a lookaround of an accepted pattern is accepted |
| Regex262.AlternationCompiles | crates/semantic-ir/src/regex262.rs:29-40 | an alternation of accepted patterns is accepted |
| Regex262.Concatenation | crates/semantic-ir/src/regex262.rs:42-52 | two accepted patterns concatenate to an accepted one exactly when no quantifier of the first swallows a part of the second or the rest of the second is accepted |
| Regex262.BracelessConcatenation | crates/semantic-ir/src/regex262.rs:161-194 | they do where the first holds no opening brace and the second does not begin with one |
| Regex262.ConcatenationFails | crates/semantic-ir/src/regex262.rs:161-194 | two accepted patterns whose concatenation is not |
| Prepare.ExpandConditionalNumeric | python_backend/adapter/prepare.py:88-191 | the loops over clauses and branches give the expanded schema, the schema as it is, or the type error Python would raise |
| Expansion.ExpandMeans | python_backend/adapter/prepare.py:88-191 | a schema is expanded exactly when it is a numeric pair whose clauses agree and bound each precision of its range and no other: into one alternative a precision, in the order of the clauses, with its record; it faults exactly at what Python cannot search or size, and is left alone otherwise |
| Prepare.CollectRules | python_backend/adapter/prepare.py:127-161 | the rules in order and each once, or the reason the schema is left alone |
| Expansion.CollectMeans | python_backend/adapter/prepare.py:127-161 | the rules are collected exactly when every clause is one and no two differ on a precision, and a fault is met exactly at an unreadable clause after clauses that agree |
| Prepare.Pass.WalkNode | python_backend/adapter/prepare.py:194-246 | the walk gives the rewritten node and appends its rewrites to the shared list, or the conflict it stops at |
| Rewrites.WalkRecords | python_backend/adapter/prepare.py:194-254 | what is recorded is exactly the rewrite each schema the pass walks to calls for, at the pointer that leads there |
| Prepare.Pass.StateClosure | python_backend/adapter/prepare.py:230-245 | closure stated once, or a conflict where it is stated twice and differently |
| Expansion.CloseMeans | python_backend/adapter/prepare.py:230-245 | the keyword is gone and its closure stated where nothing else stated one, with its record; two closures must be equal, and every other key stays |
| Expansion.DropDefaultMeans | python_backend/adapter/prepare.py:215-228 | a default is dropped exactly beside an enumeration, with its record, and every other key stays |
| PrepareLaws.PrepareExact | python_backend/adapter/prepare.py:194-254 | over regular subschemas the prepared schema accepts exactly the accepted instances whose members the schema names itself or the closure accepts |
| PrepareLaws.PreparePreservesIff | python_backend/adapter/prepare.py:194-254 | it keeps every verdict exactly when all accepted instances are such |
| PrepareLaws.PreparePreserves | python_backend/adapter/prepare.py:194-254 | preparing a schema every part of which is so closed keeps the verdict on every instance and leaves no `unevaluatedProperties` in a schema it walks |
| PrepareLaws.PrepareCovered | python_backend/adapter/prepare.py:194-254 | it keeps every verdict where subschemas applied in place name only properties the sealed schema names too, or `additionalProperties` is stated beside it |
| PrepareLaws.RestatingRegular | crates/extraction-frontend/fixtures/modules/fixture-domain/schemas/Event.json:27-42 | every sealed schema whose `allOf` only restates properties it names is of that kind |
| PrepareLaws.ExpandPreserves | python_backend/adapter/prepare.py:88-191 | expanding the conditional bounds into a union keeps every verdict |
| PrepareLaws.UnionExact | python_backend/adapter/prepare.py:163-180 | exactly one branch accepts an instance exactly when the schema does: the branches exclude each other and exhaust the precisions |
| PrepareLaws.BranchHolds | python_backend/adapter/prepare.py:168-180 | a branch accepts the instances of its precision within its bound |
| PrepareLaws.ClauseHolds | python_backend/adapter/prepare.py:127-157 | a clause bounds the scale of the instances of its precision |
| PrepareLaws.CollectTabulates | python_backend/adapter/prepare.py:127-165 | the table holds the rule of every clause and no other, one per precision |
| PrepareLaws.CloseExact | python_backend/adapter/prepare.py:230-245 | restating closure keeps exactly the accepted instances whose members the schema names itself or the closure accepts, and all of them beside `additionalProperties` |
| PrepareLaws.DefaultAlike | python_backend/adapter/prepare.py:215-228 | dropping a default keeps every verdict |
| PrepareLaws.DictAlike | python_backend/adapter/prepare.py:197-213 | replacing subschemas by like ones, under any walked keyword, keeps every verdict where closure is not stated by what subschemas evaluate, and otherwise the verdicts on those instances |
| PrepareLaws.ApplicatorBeside | python_backend/adapter/prepare.py:194-245 | the pass prepares a sealed schema whose only property is named under `allOf` into one that refuses an instance the schema accepts |
| BackEdges.FindBackEdges | conformance/adapters/python-backend/adapter.py:447-471 | nothing is reported exactly when the declared packages have no cycle; each reported package lies on one, once; every cycle runs through a reported one |
| BackEdges.Search.Visit | conformance/adapters/python-backend/adapter.py:458-466 | a visit finishes its node, keeps the nodes on the way open, and keeps every finished node decided |
| BackEdges.PathGoesBack | conformance/adapters/python-backend/adapter.py:458-466 | a path through no reported package only goes back in finishing order |
| Aliases.AliasChain | conformance/adapters/python-backend/adapter.py:415-444 | the walk ends; it reports a cycle exactly when the chain never does, and otherwise the outcome of the last name of the chain |
| Collapse.CollapseErrors | conformance/adapters/python-backend/adapter.py:221-250 | rows in order, each a reported location with its least text, exactly the locations that have nothing beneath them or fork and lie beneath none that forks; so none beneath another, every reported location at, above or beneath a row, and none with two rows beneath it |
| Collapse.FoldStep | conformance/adapters/python-backend/adapter.py:242-246 | folding the next location upwards keeps the rows an antichain that covers every location |
| Collapse.FoldForks | conformance/adapters/python-backend/adapter.py:242-246 | a location is folded into only where it forks: no one location beneath it is comparable to all that lie beneath it |
| Collapse.Gather | conformance/adapters/python-backend/adapter.py:230-235 | each reported location once, with the least of its texts |
| WriteLift.RunKeeps | crates/extraction-frontend/src/write.rs:240-263 | under any faults, in every state a first part of the planned files is in place and the rest of the file system, temporaries aside, is as before |
| WriteLift.DocumentLast | crates/extraction-frontend/src/write.rs:231-263 | where neither path is the other's temporary, the document path holds new bytes only beside the new diagnostics; a refusal leaves it as it was; a blocked lift never touches it |
| WriteLift.NoTemporaryLeft | crates/extraction-frontend/src/write.rs:224-238 | a refusal leaves no temporary of the run, except one whose removal itself failed |
| WriteLift.ApartExact | crates/extraction-frontend/src/write.rs:192-263 | of two different paths, the promise about the document path holds for every lift under any faults exactly when neither is the other's temporary |
| WriteLift.BlockedExact | crates/extraction-frontend/src/write.rs:192-214 | no blocked lift touches the document path, under any faults, exactly when it is not the temporary of the diagnostics |
| WriteLift.LiftTouches | crates/extraction-frontend/src/write.rs:192-214 | where it is, a lift has the diagnostics in the document's place on the way |
| WriteLift.FreshRun | crates/extraction-frontend/src/write.rs:240-263 | without a fault and over absent temporaries the files are the planned ones exactly when the diagnostics path is not the document's temporary; otherwise the document path holds the diagnostics |
| WriteLift.BlockedTouches | crates/extraction-frontend/src/write.rs:192-214 | without a fault a blocked lift touches an absent document path exactly when it is the temporary of the diagnostics |
| WriteLift.Disk.Write | crates/extraction-frontend/src/write.rs:240-263 | the loops of the writer take the steps of the protocol, stops and removals included |
| WriteLift.Disk.CreateTemporary | crates/extraction-frontend/src/write.rs:198-214 | a temporary whole, or removed again, or refused where one exists |

## Left out

- Byte offsets: texts are sequences of characters and an offset is a character position; the byte limit alone counts UTF-8 bytes.
- Error messages, diagnostic prose and the pointers of refusals: kinds, codes and positions are modelled, wording is not.
- `f64` arithmetic, shortest-digit printing and the finite test on lexemes beyond its bound: parameters under the stated assumptions.
- `Debug` and `Drop` of a value, memory and stack size: not functional properties.
- Schemas.Holds: `$ref` is an oracle, and `additionalItems` and `unevaluatedItems` have no model, so a schema that gives those two a subschema is not regular.
- PrepareLaws.PreparePreserves: the value of `unevaluatedProperties` is taken over unwalked, as the code does, so closure nested inside it is not claimed to be restated.
- PrepareLaws.PrepareExact: the exact condition is that of one schema over subschemas that keep their verdicts; a subschema that does not may still leave the verdicts of the whole unchanged, which no condition on it alone decides.
- CompatLaws.Triangle: asked of releases whose last one names its types, extensions and members once and whose constraints hold finite numbers only; what the document layer does not accept is classified invalid before.
- Supertypes.Ancestors: the set and that none is repeated; the documentation says nearest first, but the loop pops a stack, and its order is not part of the contract.
- BackEdges.FindBackEdges: the set and that none is repeated; the documentation says declaration order, but the list is in the order of the search, which is not part of the contract.
- Floating-point special values of a Python schema (`nan`, infinities) are not values of the model.
- NodeOrder.SortNodes: the library sort is a stable insertion sort over identities compared by code point, which is the order of their UTF-8 bytes; JSON objects of the frontend are member lists, in which the source has no repeated name.
- Patch.Working.Insert: the mutable reference into the document is a replacement of the addressed node; the tree has no sharing for the difference to show.
- WriteLift.Run: one process against a map of paths; directories, symbolic links, canonical paths and other processes are not modelled, nor is `check_output` beyond the inequality of its two paths.
- The verdict of the document layer (`rules.rs`, `schema.rs`, `vocabulary.rs`, `unit_graph.rs`): a document is valid or not as a parameter.
- The other construct rules of `constructs.rs` (feature order, exclusive membership, tuples, references, transitions, frames): one pass over a list each, easy members.
- The lifting of constructs before owners are assigned (`shape` and what it calls), bundle loading, extraction and edge harvesting: they rest on a library outside the repository.
- The classifier and the normalizer of the Python adapter: a second implementation that differs from the Rust one by design.
- The generator subprocess, its sandbox and guards, version floors and emitted package files: plumbing and text templates.
