# A model of SchemaHero's planning core

SchemaHero turns a declared table into DDL, keeps that DDL in a Migration object until somebody
approves it, and then splits and runs it. This project models the parts of that path whose
correctness is not visible from one function and proves what they promise.

- **Plans** (`Diff`, `DiffLaws`, `IndexPlan`, `TablePlan`, `TableLaws`, `Names`, `TriggerText`,
  `TriggerLaws`, `TriggerEquality`, `AsDeclared`, `PlanOrder`, `NewTables`, `NameLaws`, `Settling`,
  `StoredIndexes`, `StoredExclusions`, `FailingInputs`). Statements get a
  meaning over a catalog: dropping needs presence, creating needs absence, an index behind a
  constraint goes only with the constraint, `drop constraint` aimed at a plain index takes whatever
  constraint has that name, and the server files a name in its own way (cut at 63 bytes, folded to lower case when unquoted; section 4.1.1 of the
  PostgreSQL documentation). Over that meaning the check, index, exclusion, trigger and
  row-security sections run in plan order, reach exactly the declared objects, leave equal ones
  alone at every prefix and plan nothing afterwards, on every table on which that is possible at
  all: `TableLaws.TableSettlesIff` says exactly when. `AsDeclared` says what that means field by
  field, without the comparators: a plan is empty exactly if every object has the declared
  uniqueness, method, predicate, elements, command, roles and so on. What the server
  lists for a created object is a parameter; the theorems assume only that the family's comparator accepts it where the
  name is filed as declared, and `Settling`, `StoredIndexes` and `StoredExclusions` discharge that
  assumption for checks, indexes and exclusion constraints from the readers below, or say exactly
  which declarations do not meet it.
- **Comparators** (`Canonical`, `CanonicalLaws`, `CanonicalInk`, `CastLaws`, `CastTypes`,
  `WrapLaws`, `QuoteLaws`, `Comparators`, `StringOrder`, `ForeignKeys`). The byte scanner behind every
  expression comparison, down to which characters survive, and the equivalences on indexes and
  policies.
- **Printers and readers** (`ElementLists`, `IndexElements`, `IndexRoundTrip`, `IndexListLaws`,
  `IndexText`, `ExclusionText`, `FunctionText`, `FunctionHeader`, `FunctionEquality`,
  `FunctionLaws`, `Literals`, `SeedText`). Reading inverts printing; the literal syntax is that of sections 4.1.2.1, 4.1.2.2 and 4.1.2.4 of the PostgreSQL documentation.
- **Storing DDL** (`DdlSplit`, `DdlRoundTrip`, `DdlMarkers`). Splitting inverts joining exactly where
  no line leaves a dollar-quote delimiter open.
- **Columns and SQLite** (`PostgresColumns`, `PostgresColumnLaws`, `PostgresTables`,
  `PostgresTableLaws`, `MysqlColumns`, `ColumnInputs`, `Sqlite`, `SqliteLaws`, `SqliteFields`).
  Altering, dropping and adding columns over arbitrary rows, in rounds of planning and applying, and
  changing a SQLite table in place.
- **Concurrent machines** (`Lifecycle`, `LifecycleLaws`, `Batch`, `BatchLaws`, `BatchTimers`,
  `Rpc`). Runs are arbitrary sequences of client actions; classes hold the state and each method is one action.
- `Text`, `Parens`, `Options` and `Collections` are shared vocabulary.

Code that loops is a method proved against a function; the laws are about the function.

## What turned out not to hold

Each has the exact condition as a theorem and a failing input as a lemma.

- Canonicalizing is not idempotent: removing parentheses can bring two colons together. It is
  exactly when the form holds no `::`, and always from the second time on
  (`CanonicalLaws.CanonicalizeIdempotentIff`, `CanonicalLaws.CanonicalizeNotAlwaysIdempotent`).
- A function whose body has more than one line is replaced by every plan, because splitting the
  stored DDL flattens the body (`FunctionLaws.FunctionPlanSettlesIff`,
  `FailingInputs.TwoLineFunctionNeverSettles`).
- A function's language is compared by how it begins, so one stored in `plperlu` is taken for `plperl`
  (`FunctionEquality.AcceptedAsIff`, `FunctionEquality.UntrustedIsTakenForTrusted`).
- An explicit check name longer than 63 bytes is created anew by every plan
  (`Settling.GeneratedChecksSettle`, `FailingInputs.LongCheckNeverSettles`). So is an index name
  with an upper-case letter, which is written unquoted, unless the table already holds the index
  under that very name, as `create table` leaves an unnamed inline unique index under its generated
  name (`Settling.IndexPlanSettlesIff`, `FailingInputs.MixedCaseNeverSettles`,
  `FailingInputs.StoredUnnamedSettles`).
- `create table` gives an inline unique constraint the generated name even if the index has one of its
  own, so the very next plan adds the index again (`NewTables.InlineIff`,
  `NewTables.ExplicitNameIsAddedAgain`, `FailingInputs.NamedInlineIsAddedAgain`).
- A column never settles if its default is listed differently from how it is declared, if it is an
  array declared as its element type, or if the server knows its type by another name and it is
  declared as an array or is a key column that refuses nulls undeclared; every other column is settled
  after three rounds (`PostgresColumnLaws.SettlesIff`, `ColumnInputs.ArrayStaysArray`,
  `ColumnInputs.TimestampKeyNeverSettles`, `ColumnInputs.TimestampNeverBecomesArray`).
- A MySQL column that is redefined for another reason loses its declared character set and collation
  (`MysqlColumns.EncodingKeptIff`, `ColumnInputs.EncodingIsLost`).
- A batch callback that drains while a newer timer of its database is armed forgets that timer, so the
  next table arms a second one (`BatchTimers.OneTimerAlways`, `BatchTimers.OverlapLeavesTwo`,
  `BatchTimers.OverlapHappens`).
- The list of constraints the index builder consults names constraints of every kind, so a plain
  index that shares its name with a check and is not declared as it is stored is removed by the
  wrong statement: the index stays and the check is gone, even if it is declared
  (`IndexPlan.IndexPlanReachesIff`, `TableLaws.ConfusedIndexTakesCheck`,
  `FailingInputs.SharedNameLeavesIndex`).
- An exclusion item with a column and a different expression writes the expression but is compared
  by the column, and a column alone that the server prints in quotes is compared with the bare one;
  both are recreated by every plan (`StoredExclusions.StoredExclusionComparesIff`,
  `QuoteLaws.QuotingIsVisible`, `FailingInputs.TwoElementsNeverSettle`,
  `FailingInputs.UpperItemNeverSettles`).
- An index column is written unquoted, so one with an upper-case letter is stored folded; and a
  nulls order that the direction implies is left out by the server. Neither compares equal
  (`StoredIndexes.StoredIndexComparesIff`, `FailingInputs.UpperColumnDiffers`,
  `FailingInputs.SpeltOutNullsDiffer`).
- A one-line statement that leaves a dollar-quote delimiter open, such as one with two regular
  expressions that end in `$`, swallows the statements behind it (`DdlRoundTrip.SplitInvertsJoinIff`,
  `DdlRoundTrip.TwoDollarsOpen`, `FailingInputs.TwoDollarsSwallow`).
- A migration planned for immediate deployment carries its approval while its phase is planned, so
  it can be rejected and is applied all the same (`LifecycleLaws.RejectedCallsIff`,
  `LifecycleLaws.ImmediateIsAppliedThoughRejected`).
- Comparing indexes is symmetric exactly on extended indexes and equal column sets, and not when a
  column is repeated (`Comparators.IndexEqualsSymmetricIff`,
  `Comparators.RepeatedColumnBreaksSymmetry`).
- Role lists are documented to compare as sets (pkg/database/types/rls.go:140); the code compares
  them as multisets, and so does the model (`Comparators.RolesEqualIff`,
  `FailingInputs.RepeatedRoleDiffers`).
- The retry after a conflict stamps whatever it reads again as executed. The stamped plan was
  applied exactly if no plan came in between or another executor applied it first, and one that was
  still waiting for approval is never applied (`LifecycleLaws.RetryStampsAppliedPlanIff`,
  `LifecycleLaws.StampedPlanAppliedIff`, `LifecycleLaws.ConflictLosesPlan`).
- An index of sorted columns none of which carries an operator class, a direction or a nulls
  order is not read back (`IndexListLaws.SortedIndexReadsBackIff`,
  `FailingInputs.DefaultIndexDoesNotReadBack`).

## Model

| member | source | states |
|---|---|---|
| `Diff.BuildStatements` | plugins/postgres/lib/checkconstraint.go:134-199 | the two loops with their dropped-names list compute the desired pass followed by the existing pass; the list never matters |
| `Diff.DiffDesired` | plugins/postgres/lib/checkconstraint.go:143-170 | the desired pass creates what is missing, recreates what differs, and drops desired names only |
| `Diff.ExecConcat` | plugins/postgres/lib/deploy.go:139-178 | running sections one after the other is running their concatenation |
| `DiffLaws.PlanReachesDesired` | plugins/postgres/lib/checkconstraint.go:134-199 | for every catalog and every desired list with distinct names, each stored as declared or filed verbatim, the plan never drops an absent object or creates a present one and ends with exactly the desired names, each comparing equal, kept ones as they were |
| `DiffLaws.ReplanIsEmpty` | plugins/postgres/lib/exclusionconstraint.go:231-297 | any listing of the reached catalog plans nothing |
| `DiffLaws.EmptyPlanMeans` | plugins/postgres/lib/checkconstraint.go:134-199 | an empty plan means that exactly the declared objects are stored, each comparing equal |
| `DiffLaws.KeptThroughout` | plugins/postgres/lib/trigger.go:199-293 | an object that already compares equal is present and unchanged after every prefix of the plan |
| `DiffLaws.PlanCounts` | plugins/postgres/lib/deploy.go:247-324 | the drops are exactly the changed objects followed by the undesired ones, the creates exactly the changed and the new ones |
| `DiffLaws.DropsOnce` | plugins/postgres/lib/checkconstraint.go:172-196 | no name is dropped twice, and a stored name is dropped exactly if no declared object compares equal to it |
| `DiffLaws.SettlesIff` | pkg/database/types/identifier.go:8-16 | on every catalog a plan runs and then plans nothing exactly if every declared object is stored as declared or has a name the server files verbatim |
| `DiffLaws.MisfitIsMissing` | pkg/database/types/identifier.go:8-16 | a declared object that does not fit is missing wherever the plan ends |
| `DiffLaws.SilentFrame` | plugins/postgres/lib/deploy.go:247-324 | statements about other names leave a stored object as it is |
| `IndexPlan.BuildIndexStatements` | plugins/postgres/lib/deploy.go:622-720 | the index builder with its in-place names, early exits and removal by constraint or index computes the specified statements |
| `IndexPlan.DiffIndex` | plugins/postgres/lib/deploy.go:655-692 | an equal index anywhere ends the search; otherwise the one of that name is removed and the declared one added |
| `IndexPlan.RemoveIndex` | plugins/postgres/lib/deploy.go:672-683 | `drop constraint` exactly for a listed constraint name |
| `IndexPlan.IndexStatementsAreDiff` | plugins/postgres/lib/deploy.go:639-717 | comparing whole indexes instead of names yields the same two-pass plan |
| `IndexPlan.IndexPlanReachesIff` | plugins/postgres/lib/deploy.go:622-720 | the index plan runs and ends with exactly the declared indexes if and only if every plain index that shares its name with a listed constraint is declared as it is stored; no removal then hits another constraint |
| `IndexPlan.IndexesSettleIff` | plugins/postgres/lib/deploy.go:622-720 | on every catalog the index statements run and then plan nothing exactly if every declared index is stored as declared or filed verbatim and no plain index to be dropped is taken for a constraint |
| `IndexPlan.IndexReplanIsEmpty` | plugins/postgres/lib/deploy.go:622-720 | from there no listing of indexes and constraints yields a statement |
| `IndexPlan.BackedNeedsDropConstraint` | plugins/postgres/lib/deploy.go:666-714 | `drop index` is never aimed at an index behind a constraint |
| `IndexPlan.TaggedRuns` | plugins/postgres/lib/index.go:13-23 | a plan whose removal tags fit the indexes they remove does what the untagged plan does, and never takes another constraint along |
| `NewTables.BuildInlineConstraints` | plugins/postgres/lib/create.go:101-114 | the loop of `create table` over the indexes computes the inline constraints |
| `NewTables.InlineIff` | plugins/postgres/lib/index.go:119-145 | exactly the unique, total btree indexes over plain columns are declared inline, under the generated name |
| `NewTables.NewTableIndexes` | plugins/postgres/lib/deploy.go:639-645 | on a new table the index builder adds exactly the others, in order |
| `NewTables.GeneratedNameIsKept` | plugins/postgres/lib/create.go:101-114 | an inline index without a name, or with the generated one, is kept by the next plan |
| `NewTables.ExplicitNameIsAddedAgain` | plugins/postgres/lib/create.go:101-114 | an index whose name the table does not hold is added by the next plan |
| `Names.CapIdentifier` | pkg/database/types/identifier.go:37-52 | a generated name never exceeds 63 bytes |
| `Names.CappedNames` | pkg/database/types/identifier.go:25-52 | a capped name reaches the catalog as generated; two long names share one only if digest and 54-byte prefix agree |
| `Names.FoldedVerbatimIff` | plugins/postgres/lib/index.go:43-48 | a name written unquoted is filed as declared exactly if it is short and in lower case |
| `Names.FilingTwice` | pkg/database/types/identifier.go:8-16 | filing a filed name changes nothing |
| `Names.BareHasNoDot` | pkg/database/types/tablename.go:10-15 | the bare table name holds no dot |
| `Names.SanitizeIdentFragment` | pkg/database/types/checkconstraint.go:36-56 | the fragment holds only lower-case letters, digits and single inner underscores |
| `Names.GeneratedCheckName` | pkg/database/types/checkconstraint.go:21-34 | a generated check name is never cut by the server, holds no dot and is not empty |
| `NameLaws.FragmentIsSpelt` | pkg/database/types/checkconstraint.go:36-56 | a fragment is the lower-case letters and digits of the text with one underscore for everything in between |
| `NameLaws.GeneratedIndexName` | pkg/database/types/index.go:280-282 | the generated name of an index, spelt out, on a table in any schema |
| `NameLaws.GeneratedNameOfCheck` | pkg/database/types/checkconstraint.go:28-34 | the generated name of a check, spelt out |
| `NameLaws.GeneratedNameOfExclusion` | pkg/database/types/exclusionconstraint.go:141-156 | the generated name of an exclusion constraint, spelt out |
| `NameLaws.CappedIs` | pkg/database/types/identifier.go:37-52 | a short name stays; of a long one 54 characters and 8 of its digest remain |
| `NameLaws.NamedAsDeclared` | plugins/postgres/lib/deploy.go:639-654 | an index keeps its name or gets the generated one, and nothing else about it changes |
| `TriggerText.StripRedundantPublicSchema` | plugins/postgres/lib/trigger.go:143-156 | the scanning loop computes the qualifier-free text |
| `TriggerText.QualifierIsInvisible` | plugins/postgres/lib/trigger.go:133-180 | the stripping step drops `public.` in front of an identifier at a word boundary |
| `TriggerLaws.QualifiedTriggerIsEqual` | plugins/postgres/lib/trigger.go:122-180 | writing `public.` in front of an identifier at the start of a word does not change what whole definitions are compared by, unless the identifier is itself so qualified or begins with `procedure` |
| `TriggerLaws.JoinFieldsIsSqueeze` | plugins/postgres/lib/trigger.go:122-131 | joining the fields with single blanks is collapsing the blanks |
| `TriggerText.QuotesAndCaseAreInvisible` | plugins/postgres/lib/trigger.go:88-131 | quotes and letter case do not change the compared definition |
| `TriggerEquality.TidyStays` | plugins/postgres/lib/trigger.go:122-180 | a tidy definition is compared as it is, so two of them compare equal only if they are the same text |
| `TriggerEquality.SemicolonIsInvisible` | plugins/postgres/lib/trigger.go:122-131 | a semicolon behind the last word does not count |
| `TriggerEquality.SynonymIsInvisible` | plugins/postgres/lib/trigger.go:122-131 | `execute procedure` in front of a name is compared as `execute function` |
| `TablePlan.BuildCheckConstraintStatements` | plugins/postgres/lib/checkconstraint.go:134-199 | the plan of the check family |
| `TablePlan.BuildExclusionConstraintStatements` | plugins/postgres/lib/exclusionconstraint.go:231-297 | the plan of the exclusion family |
| `TablePlan.BuildTriggerStatements` | plugins/postgres/lib/trigger.go:199-293 | the plan of the trigger family, or the error of the first unnamed or unrenderable trigger |
| `TablePlan.BuildRowLevelSecurityStatements` | plugins/postgres/lib/deploy.go:206-327 | nothing unless managed; otherwise toggles and the plan of the policies, or the first error |
| `TablePlan.BuildCheckedStatements` | plugins/postgres/lib/deploy.go:249-259 | the first refused object ends the plan with its error |
| `TablePlan.PlanTable` | plugins/postgres/lib/deploy.go:139-178 | the sections joined in plan order |
| `PlanOrder.PlanIsOrdered` | plugins/postgres/lib/deploy.go:139-178 | every accepted plan has checks, indexes, exclusion constraints, triggers, switches (enabling before forcing) and policies in that order |
| `TableLaws.TablePlanReachesDesired` | plugins/postgres/lib/deploy.go:139-178 | the sections of all families in plan order run on every table that the declarations fit and end with exactly the declared objects of each; unmanaged row security is untouched and unconstrained |
| `TableLaws.TableSettlesIff` | plugins/postgres/lib/deploy.go:139-178 | on every table the whole plan is accepted, runs and then plans nothing exactly if the schema is accepted, every declared object is stored as declared or has a name filed verbatim, and every plain index named like a constraint is declared as it is stored |
| `AsDeclared.TableEndsAsDeclared` | plugins/postgres/lib/deploy.go:139-178 | wherever an accepted plan ends, each declared name holds an object with the declared fields and no other name does: predicate, uniqueness, method, elements, operators, trigger text, switches, and permissiveness, command and roles of policies |
| `AsDeclared.TablePlansNothingIff` | plugins/postgres/lib/deploy.go:139-178 | on every table a plan is empty exactly if the schema is accepted and every object is as declared, field by field |
| `AsDeclared.IndexEqualsIff` | pkg/database/types/index.go:63-112 | an index is accepted exactly if name, uniqueness, method (btree if none), canonical predicate and columns or elements are the declared ones |
| `AsDeclared.ExclusionEqualsIff` | pkg/database/types/exclusionconstraint.go:71-106 | an exclusion constraint is accepted exactly if method (gist if none), canonical predicate and every item's element and operator are the declared ones |
| `AsDeclared.SamePolicyIff` | pkg/database/types/rls.go:124-175 | a policy is accepted exactly if it is restrictive as the word says and has the declared command (all if none) and role bag |
| `TableLaws.TableReplanIsEmpty` | plugins/postgres/lib/deploy.go:139-178 | planning again from any listing of where a plan ended yields the empty list |
| `TableLaws.EqualObjectsStay` | plugins/postgres/lib/deploy.go:247-324 | after every prefix of the whole plan every object that compared equal is present and unchanged, in every family |
| `TableLaws.RunsApart` | plugins/postgres/lib/deploy.go:139-178 | any interleaving of statements in which no removal strays does to each family what the family's own statements do |
| `TableLaws.ConfusedIndexTakesCheck` | plugins/postgres/lib/deploy.go:666-714 | wherever an accepted plan ends, a plain index named like a constraint and not declared as it is stored is still there, and no check of that name is, declared or not |
| `TableLaws.PlanAcceptedIff` | plugins/postgres/lib/trigger.go:223-233 | a schema is refused exactly for an unnamed or unrenderable trigger, an unnamed policy or a misspelt toggle |
| `TableLaws.FlagsReached` | plugins/postgres/lib/rls.go:23-41 | accepted toggles end in the asked state, and are silent exactly there |
| `TableLaws.ToggleWorks` | plugins/postgres/lib/rls.go:12-41 | a toggle is refused exactly for an unknown word and emitted exactly if the state differs |
| `Settling.CheckPlanSettlesIff` | pkg/database/types/identifier.go:8-16 | a check plan settles exactly if no name exceeds 63 bytes |
| `Settling.GeneratedChecksSettle` | pkg/database/types/checkconstraint.go:28-34 | only an explicit name can be too long |
| `Settling.IndexPlanSettlesIff` | plugins/postgres/lib/index.go:25-53 | on every catalog the index statements settle exactly if every name is short and in lower case or its index already stored as declared, and no plain index to be dropped is taken for a constraint |
| `Settling.StoredCheckComparesEqual` | plugins/postgres/lib/checkconstraint.go:60-78 | the predicate recovered from the stored `CHECK ((...))` compares equal to the declared one |
| `Settling.StoredChecksRender` | plugins/postgres/lib/checkconstraint.go:110-121 | stored checks meet what the plan theorems assume of the server |
| `StoredIndexes.StoredIndexComparesIff` | pkg/database/types/index.go:63-112 | an index of plain columns, sorted columns or expressions, read back from what the server stores, compares equal to its declaration exactly if its name and columns are filed as declared, no sorted column spells out an implied nulls order, and one of the sorted columns, if any, keeps an ordering |
| `StoredIndexes.SortedReadBackIff` | plugins/postgres/lib/helpers.go:86-172 | sorted columns read back equal from the stored definition under exactly that condition, and never as expressions |
| `StoredIndexes.FoldedColumnsEqualIff` | plugins/postgres/lib/index.go:81-83 | the folded columns equal the declared ones exactly if folding changes none |
| `StoredIndexes.StoredIndexesRender` | plugins/postgres/lib/helpers.go:86-172 | stored indexes of any name that meet the condition meet what the plan theorems assume of the server |
| `StoredExclusions.StoredReadsBack` | plugins/postgres/lib/exclusionconstraint.go:59-154 | method, items and predicate of the written constraint are read back from the stored text, columns that need quotes in quotes |
| `StoredExclusions.StoredExclusionComparesIff` | pkg/database/types/exclusionconstraint.go:71-106 | a stored constraint compares equal to its declaration exactly if no item gives a column and a different expression, or a column alone that needs quotes |
| `StoredExclusions.StoredExclusionsRender` | plugins/postgres/lib/exclusionconstraint.go:231-297 | stored exclusion constraints that meet the condition meet what the plan theorems assume of the server |
| `FailingInputs.LongCheckNeverSettles` | pkg/database/types/checkconstraint.go:28-34 | a check with an explicit name of 64 bytes never settles |
| `FailingInputs.MixedCaseNeverSettles` | plugins/postgres/lib/index.go:42-47 | a mixed-case index never settles on a table without it |
| `FailingInputs.StoredUnnamedSettles` | plugins/postgres/lib/create.go:101-114 | an unnamed unique index that `create table` stored under its generated name, whatever its case, settles and plans nothing |
| `FailingInputs.NamedInlineIsAddedAgain` | plugins/postgres/lib/create.go:101-114 | an inline unique index with a name of its own is added again by the next plan |
| `FailingInputs.SharedNameLeavesIndex` | plugins/postgres/lib/deploy.go:704-714 | removing a plain index named like a constraint leaves the index in place |
| `FailingInputs.UpperColumnDiffers` | plugins/postgres/lib/index.go:81-83 | an index on an upper-case column never compares equal |
| `FailingInputs.SpeltOutNullsDiffer` | plugins/postgres/lib/index.go:101-105 | a nulls order implied by the direction never compares equal |
| `FailingInputs.TwoDollarsSwallow` | pkg/database/database.go:555-611 | a statement with two dollars swallows whatever statement follows |
| `FailingInputs.TwoLineFunctionNeverSettles` | plugins/postgres/lib/function.go:28-58 | a function body of two lines never compares equal once executed |
| `FailingInputs.DefaultIndexDoesNotReadBack` | plugins/postgres/lib/helpers.go:94-104 | a sorted column without any ordering is not read back |
| `FailingInputs.RepeatedRoleDiffers` | pkg/database/types/rls.go:140-153 | lists of the same roles, one repeated, do not compare equal |
| `FailingInputs.TwoElementsNeverSettle` | plugins/postgres/lib/exclusionconstraint.go:66-74 | an item with a column and another expression never compares equal |
| `FailingInputs.UpperItemNeverSettles` | plugins/postgres/lib/exclusionconstraint.go:66-74 | an item with an upper-case column never compares equal |
| `Canonical.SkipTypeToken` | pkg/database/types/canonical.go:209-293 | stays within bounds and consumes exactly one type token |
| `Canonical.StripTypeCasts` | pkg/database/types/canonical.go:67-99 | the scan with look-back rewriting computes the cast-free text |
| `Canonical.UnquoteTrailingNumericLiteral` | pkg/database/types/canonical.go:129-151 | drops the quotes of a numeric literal at the end, and nothing else |
| `Canonical.IsNumericLiteral` | pkg/database/types/canonical.go:157-185 | optional sign, digits and at most one dot, at least one digit |
| `Canonical.CanonicalizeSQLExpr` | pkg/database/types/canonical.go:26-65 | the loop with its pending blank computes the canonical form |
| `CanonicalLaws.StripCastsRemovesCasts` | pkg/database/types/canonical.go:67-99 | no `::` is left in any text |
| `CanonicalLaws.StripCastsIdempotent` | pkg/database/types/canonical.go:67-99 | removing casts twice is removing them once |
| `CanonicalLaws.CanonicalizeShape` | pkg/database/types/canonical.go:26-65 | no parentheses, upper case, doubled, leading or trailing blank, no blank next to a comma |
| `CanonicalInk.CanonicalIsWritten` | pkg/database/types/canonical.go:26-65 | of the lower-case text without casts exactly parentheses and white space are dropped, and one blank is left in every gap that is not next to a comma |
| `CanonicalInk.InkSurvives` | pkg/database/types/canonical.go:26-65 | the form without its blanks is that text without parentheses, blanks, tabs, newlines and carriage returns, feeds at its ends aside |
| `CanonicalLaws.CanonicalizeIdempotentIff` | pkg/database/types/canonical.go:26-65 | canonicalizing again changes nothing exactly if the form holds no `::` |
| `CanonicalLaws.CanonicalizeSettlesInTwo` | pkg/database/types/canonical.go:26-65 | the third form is the second, for every text |
| `CanonicalLaws.CanonicalizeNotAlwaysIdempotent` | pkg/database/types/canonical.go:26-65 | a text whose second form differs from its first |
| `CastLaws.CastIsInvisible` | pkg/database/types/canonical.go:26-151 | a cast behind text without `::` never changes the form, unless a numeric type follows a quoted number |
| `CastLaws.QuotedNumberReadsAsBare` | pkg/database/types/canonical.go:101-151 | a quoted number cast to a numeric type reads as the bare number |
| `CastLaws.RenderedTypeConsumed` | pkg/database/types/canonical.go:187-293 | the scanner consumes every rendered type (qualifier, continuation words, modifier, dimensions) whole when the text behind cannot extend it |
| `CastLaws.WordBehindBlanks` | pkg/database/types/canonical.go:231-257 | a further word of a type name is consumed behind any number of blanks and tabs |
| `CastLaws.TypeLenLower` | pkg/database/types/canonical.go:209-293 | the length of a type token does not depend on letter case |
| `CastTypes.TypedCastIsInvisible` | pkg/database/types/canonical.go:67-104 | a cast to any rendered type is dropped without a trace, unless it is a cast of a quoted number to a number type |
| `CastTypes.TypedNumberReadsAsBare` | pkg/database/types/canonical.go:101-151 | in that case the quotes go with it |
| `CastTypes.NumericTypeIff` | pkg/database/types/canonical.go:106-127 | exactly the fourteen number types count as numeric, with a modifier or without |
| `CastTypes.NumberIff` | pkg/database/types/canonical.go:157-185 | a numeric literal is at most one sign, digits and at most one point |
| `WrapLaws.WrappingIsInvisible` | pkg/database/types/canonical.go:26-65 | parentheses around a trimmed expression do not change its form, for every text |
| `QuoteLaws.QuotingIsVisible` | pkg/database/types/canonical.go:26-65 | an identifier in double quotes, its own quotes doubled, never has the canonical form of the bare one, for every text |
| `WrapLaws.CanonicalAround` | pkg/database/types/canonical.go:26-65 | opening parentheses and blanks in front and closing ones behind never change the form |
| `Comparators.EqualIndexes` | pkg/database/types/index.go:63-112 | the early-exit loops decide index equality |
| `Comparators.IndexEqualsReflexive` | pkg/database/types/index.go:63-156 | every index equals itself |
| `Comparators.IndexEqualsSymmetricIff` | pkg/database/types/index.go:95-111 | a comparison holds in the other direction exactly if the index is extended or the column sets agree |
| `Comparators.IndexEqualsSymmetric` | pkg/database/types/index.go:95-111 | so the comparison is symmetric when the right-hand columns are distinct |
| `Comparators.IndexEqualsTransitive` | pkg/database/types/index.go:63-156 | equality is transitive on all indexes |
| `Comparators.PlainAndExtendedDiffer` | pkg/database/types/index.go:80-93 | plain and extended indexes never compare equal |
| `Comparators.RepeatedColumnBreaksSymmetry` | pkg/database/types/index.go:95-111 | with a repeated column the comparison is not symmetric |
| `Comparators.RolesEqualIff` | pkg/database/types/rls.go:140-153 | roles compare equal exactly if they are the same multiset, nobody meaning everybody |
| `Comparators.AttributesEqualIsEquivalence` | pkg/database/types/rls.go:124-153 | the structural comparison of policies is an equivalence |
| `ForeignKeys.EqualForeignKeys` | pkg/database/types/foreignkey.go:18-63 | the early-exit loops decide foreign-key equality |
| `ForeignKeys.MatchForeignKeys` | plugins/sqlite/lib/deploy.go:240-257 | as many keys as declared and an equal one for each declared key |
| `ForeignKeys.MatchInAnyOrder` | plugins/sqlite/lib/deploy.go:240-257 | whether the keys match does not depend on the order they are listed in |
| `StringOrder.SortsEqualIff` | pkg/database/types/rls.go:47-57 | sorted lists are equal exactly if the lists are permutations of each other |
| `ElementLists.SplitTopLevelCommas` | plugins/postgres/lib/helpers.go:196-215 | the depth-counting loop computes the pieces between top-level commas |
| `ElementLists.SplitTopJoins` | plugins/postgres/lib/helpers.go:196-215 | splitting and joining with commas is the identity on every text |
| `ElementLists.PrintedListSplits` | plugins/postgres/lib/helpers.go:196-215 | trimmed elements printed with `, ` between them split back into themselves |
| `ElementLists.ExtractIndexElementList` | plugins/postgres/lib/helpers.go:174-194 | the text of the first parenthesized group, or nothing |
| `ElementLists.ElementListOf` | plugins/postgres/lib/helpers.go:174-194 | the group is recovered whatever balanced text it holds |
| `ElementLists.HasBalancedOuterParens` | plugins/postgres/lib/checkconstraint.go:80-99 | decides whether the first parenthesis closes at the end |
| `ElementLists.OuterParensIff` | plugins/postgres/lib/checkconstraint.go:80-99 | a pair around a text is the outer pair exactly if the text is balanced |
| `ElementLists.StripCheckWrapper` | plugins/postgres/lib/checkconstraint.go:60-78 | computes the recovered predicate |
| `ElementLists.CheckBodyOf` | plugins/postgres/lib/checkconstraint.go:60-78 | the predicate is recovered from the catalog's wrapper in any letter case |
| `IndexElements.ParseIndexElements` | plugins/postgres/lib/helpers.go:86-172 | the classification loops compute sorted columns and expressions |
| `IndexElements.ParseSortedColumnElement` | plugins/postgres/lib/helpers.go:240-276 | the first field that is no ordering keyword is the operator class |
| `IndexRoundTrip.SortedColumnReadsBack` | plugins/postgres/lib/index.go:85-109 | a printed sorted column reads back as one that compares equal |
| `IndexListLaws.SortedIndexReadsBackIff` | plugins/postgres/lib/helpers.go:86-172 | an index over sorted columns reads back equal exactly if one of them is ordered |
| `IndexListLaws.ExpressionIndexReadsBack` | plugins/postgres/lib/index.go:111-117 | an index over balanced expressions reads back as equal expressions |
| `IndexListLaws.BareListReadsNothing` | plugins/postgres/lib/helpers.go:86-104 | a list of bare names is read as a plain index |
| `IndexListLaws.OrderedListReadsColumns` | plugins/postgres/lib/helpers.go:86-172 | with anything behind one of the names all are read as ordered columns, in order |
| `IndexListLaws.MixedListReadsExpressions` | plugins/postgres/lib/helpers.go:106-172 | bare names among expressions are read as expressions, so that the order is kept |
| `IndexListLaws.OperatorClassIsLower` | plugins/postgres/lib/helpers.go:240-275 | an operator class is read in lower case and is never an ordering keyword |
| `IndexText.IndexReadsBack` | plugins/postgres/lib/index.go:25-117 | every `create index` statement reads back as uniqueness, name, table, method, elements, options and predicate |
| `ExclusionText.IndexOfWordCI` | plugins/postgres/lib/exclusionconstraint.go:201-214 | the first stand-alone occurrence of a word in any letter case |
| `ExclusionText.FirstStandAlone` | plugins/postgres/lib/exclusionconstraint.go:201-214 | the occurrence found is the first one between white space or the ends, a parenthesis allowed behind it |
| `ExclusionText.SplitItemOnWith` | plugins/postgres/lib/exclusionconstraint.go:163-191 | splits at the first top-level `WITH` |
| `ExclusionText.ParseExclusionConstraintDef` | plugins/postgres/lib/exclusionconstraint.go:116-154 | computes method, items and predicate |
| `ExclusionText.TotalExclusionReadsBack` | plugins/postgres/lib/exclusionconstraint.go:116-154 | method and ordered items are recovered from the catalog form |
| `ExclusionText.PartialExclusionReadsBack` | plugins/postgres/lib/exclusionconstraint.go:116-214 | so they are with a predicate, which is recovered too |
| `FunctionLaws.EmittedTextIsAccepted` | plugins/postgres/lib/deploy.go:793-840 | the emitted text compares equal exactly if the flag is set or no stray `security definer` text is there |
| `FunctionLaws.ExecutedTextIsAccepted` | plugins/postgres/lib/deploy.go:793-840 | the text that is really executed compares equal exactly if, in addition, flattening leaves the trimmed body alone |
| `FunctionLaws.FlattenKeepsSingleLines` | pkg/database/database.go:555-611 | which it does exactly if the trimmed body is one line |
| `FunctionLaws.FunctionPlanSettlesIff` | plugins/postgres/lib/function.go:28-58 | a function plan settles exactly if the trimmed body is one line |
| `FunctionEquality.AcceptedAsIff` | plugins/postgres/lib/deploy.go:793-818 | the text of one function is taken for another exactly if the trimmed bodies agree, the desired language is how the other begins and `security definer` is mentioned as desired |
| `FunctionEquality.UntrustedIsTakenForTrusted` | plugins/postgres/lib/deploy.go:793-818 | a function stored in `plperlu` is taken for the same one in `plperl` |
| `FunctionHeader.HeadReadsBack` | plugins/postgres/lib/function.go:28-50 | the head of every function statement reads back as qualified name, parameters, return type, set flag and security |
| `FunctionHeader.ParamReadsBack` | plugins/postgres/lib/helpers.go:324-339 | a parameter reads back as mode, name and type |
| `DdlSplit.GetStatementsFromDDL` | pkg/database/database.go:555-611 | the line-driven loop computes the specified statements |
| `DdlSplit.StatementsPreserveText` | pkg/database/database.go:555-611 | statements joined by blanks are the trimmed non-blank lines joined by blanks, none is empty, all but the last end in `;` |
| `DdlSplit.StatementsPartitionLines` | pkg/database/database.go:555-611 | the statements group the lines in order |
| `DdlRoundTrip.SplitInvertsJoinIff` | pkg/controller/table/reconcile_table.go:312-313 | a list of one-line statements and function blocks, joined with `;` and a newline, splits back into as many statements in order, each flattened, exactly if no one-line statement but the last leaves a delimiter open |
| `DdlRoundTrip.TwoDollarsOpen` | pkg/database/database.go:571-590 | two dollars on a line open what lies between them |
| `DdlRoundTrip.OneDollarIsQuiet` | pkg/database/database.go:571-590 | one dollar on a line opens nothing |
| `DdlRoundTrip.ClosedAgainIsQuiet` | pkg/database/database.go:571-590 | a delimiter that the line closes again opens nothing |
| `DdlRoundTrip.FlattenSemicolon` | pkg/database/database.go:555-611 | the semicolon follows the flattened text |
| `DdlMarkers.MarkedStaysTogether` | pkg/database/database.go:590-604 | a statement with a block between two marker lines comes back as one, whatever ends in a semicolon inside |
| `Literals.LiteralReadsBack` | plugins/postgres/lib/create.go:209-221 | reading an escaped string by PostgreSQL's rules gives the string back, for every string |
| `Literals.LiteralIsOneLine` | plugins/postgres/lib/create.go:209-221 | a literal holds no raw newline |
| `Literals.SeedDataStatements` | plugins/postgres/lib/create.go:16-46 | one insert per row, columns and values in order |
| `Literals.SeedRowsSurviveIff` | plugins/postgres/lib/create.go:16-46 | inserts with single-line column names survive joining and splitting one for one exactly if none but the last leaves a delimiter open |
| `Literals.InsertValuesReadBack` | plugins/postgres/lib/create.go:16-46 | the values of an insert read back as the row's values |
| `SeedText.ColumnsReadBack` | plugins/postgres/lib/create.go:16-46 | the columns of an insert read back in order |
| `SeedText.ConflictReadsBack` | plugins/postgres/lib/create.go:38-42 | without a key to conflict on nothing follows the values; with one, the key and every column set to the row's own value read back |
| `Literals.NatTextInjective` | pkg/database/plugin/rpc.go:127 | distinct numbers have distinct decimal texts |
| `PostgresColumns.AlterColumnStatements` | plugins/postgres/lib/alter.go:12-125 | the first declared column of the name decides: its conversion error, its changes, or a drop |
| `PostgresColumns.ColumnChanges` | plugins/postgres/lib/alter.go:77-114 | the changes of type, default and nullability in order |
| `PostgresColumns.WrittenAsDeclared` | plugins/postgres/lib/oid.go:46-52 | a literal or call without a cast literal is written as declared |
| `PostgresColumns.ListedLiteral` | plugins/postgres/lib/oid.go:18-26 | the catalog's cast behind a literal is dropped again |
| `PostgresColumnLaws.SettlesIff` | plugins/postgres/lib/alter.go:12-125 | every column over all rows, array, serial, key or plain, settles in some number of rounds exactly if its nulls can be filled where they have to go and it is not hopeless, and then in three |
| `PostgresColumnLaws.NoNullWhenTightening` | plugins/postgres/lib/alter.go:26-74 | with a default that has a value, no row is null when `set not null` runs |
| `PostgresColumnLaws.SettledIff` | plugins/postgres/lib/alter.go:140-189 | an empty plan means exactly that type, array, default and nullability are as declared, that the column is serial, or that only a key's refusal of nulls is undeclared |
| `PostgresColumnLaws.TighteningRound` | plugins/postgres/lib/alter.go:26-74 | a tightening runs exactly if the nulls can be filled, and leaves none |
| `PostgresColumnLaws.NeverSettles` | plugins/postgres/lib/alter.go:77-114 | a hopeless column is not settled after any number of rounds |
| `PostgresColumnLaws.ChangesAreOrdered` | plugins/postgres/lib/alter.go:77-114 | type, default and nullability are changed in that order, each at most once |
| `PostgresTables.BuildColumnStatements` | plugins/postgres/lib/deploy.go:432-517 | every listed column is altered or dropped, then every missing declared one added, or the first conversion error |
| `PostgresTableLaws.DroppedIff` | plugins/postgres/lib/alter.go:16-125 | the statements for a column are a drop exactly if no declared column has its name |
| `PostgresTableLaws.AddsComeLast` | plugins/postgres/lib/deploy.go:495-514 | nothing is altered or dropped behind an added column |
| `PostgresTableLaws.TableRound` | plugins/postgres/lib/deploy.go:432-517 | the statements run exactly if every declared column can be altered or added; they leave exactly the declared columns, each as if it stood alone |
| `PostgresTableLaws.ThreeRoundsSettle` | plugins/postgres/lib/deploy.go:432-517 | three rounds from any listings leave exactly the declared columns, each as declared, and then plan nothing |
| `PostgresTableLaws.BareDefaultReadsBack` | plugins/postgres/lib/oid.go:46-52 | a default that is neither literal nor call is written as a literal of that text |
| `MysqlColumns.ModifyStatements` | plugins/mysql/lib/alter_statements.go:16-118 | the clause-by-clause methods compute the specified statements |
| `MysqlColumns.ModifyColumn` | plugins/mysql/lib/alter_statements.go:39-87 | one redefinition with its clauses in order |
| `MysqlColumns.StatementsRunIff` | plugins/mysql/lib/alter_statements.go:16-118 | they run exactly if no null meets `not null` without a default, and end with the declared type, default and nullability |
| `MysqlColumns.NoNullWhenRefused` | plugins/mysql/lib/alter_statements.go:89-118 | with a default, every statement that refuses nulls finds none, whatever the rows hold |
| `MysqlColumns.EncodingKeptIff` | plugins/mysql/lib/alter_statements.go:39-62 | the declared character set and collation are kept exactly if they differ from the listed ones or are both empty |
| `MysqlColumns.DefinitionIsOrdered` | plugins/mysql/lib/alter_statements.go:39-87 | type, character set, nullability, numbering and default follow one another, each at most once |
| `ColumnInputs.ArrayStaysArray` | plugins/postgres/lib/alter.go:82-85 | an array declared as its element type never settles |
| `ColumnInputs.TimestampKeyNeverSettles` | plugins/postgres/lib/alter.go:140-189 | a key column declared `timestamp` without `not null` never settles |
| `ColumnInputs.TimestampNeverBecomesArray` | plugins/postgres/lib/alter.go:79-86 | a column declared `timestamp[]` never becomes an array |
| `ColumnInputs.EncodingIsLost` | plugins/mysql/lib/alter_statements.go:39-62 | widening a column loses its declared character set |
| `Sqlite.CheckTableNeedsRecreate` | plugins/sqlite/lib/deploy.go:222-322 | the nested loops decide whether the table has to be rebuilt |
| `Sqlite.BuildAlterIndexStatements` | plugins/sqlite/lib/alter.go:50-88 | the index loops compute the specified statements |
| `Sqlite.BuildStatements` | plugins/sqlite/lib/deploy.go:160-217 | the rebuild, or added columns, index changes and dropped columns in that order |
| `SqliteLaws.AlterReachesDeclared` | plugins/sqlite/lib/deploy.go:173-217 | without a rebuild every statement runs, no drop hits a constraint's index or a column in use, and exactly the declared columns and indexes remain |
| `SqliteFields.AlterEndsAsDeclared` | plugins/sqlite/lib/deploy.go:173-217 | without a rebuild the table ends with exactly the declared columns and indexes, each with the declared type, collation, default, nullability, numbering, uniqueness and columns, and with the declared key and foreign keys |
| `SqliteFields.RebuildIff` | plugins/sqlite/lib/deploy.go:222-322 | a rebuild is asked for exactly if the key, a foreign key, a column that is there or an index behind a constraint is not as declared |
| `SqliteFields.ColumnsMatchIff` | plugins/sqlite/lib/alter.go:90-124 | a column matches exactly if type up to case, collation, default, nullability and numbering agree |
| `SqliteFields.ForeignKeyEqualsIff` | pkg/database/types/foreignkey.go:18-79 | a foreign key is accepted exactly if parent, columns, delete action (no action if none) and, where both have one, name agree |
| `SqliteFields.NamedAsDeclared` | pkg/database/types/index.go:284-286 | an index keeps its name or gets one from the table and its columns |
| `SqliteLaws.RerunIsEmpty` | plugins/sqlite/lib/deploy.go:173-217 | from there the add, index and drop loops emit nothing |
| `SqliteLaws.ReplanIsNothing` | plugins/sqlite/lib/deploy.go:100-217 | nor is a rebuild asked for, in whatever order things are listed: the whole plan is empty |
| `SqliteLaws.NoConstraintDropped` | plugins/sqlite/lib/deploy.go:281-319 | the check for a rebuild keeps constraints' indexes out of the drops |
| `SqliteLaws.ConstraintIsKept` | plugins/sqlite/lib/deploy.go:281-319 | without a rebuild an index behind a constraint is declared as it is |
| `SqliteLaws.OnlyDeclaredInUse` | plugins/sqlite/lib/deploy.go:224-238 | by counting, the key and the remaining indexes use declared columns only |
| `SqliteLaws.IndexStatementsAreDiff` | plugins/sqlite/lib/alter.go:50-88 | the index loops are the two-pass diff |
| `Lifecycle.Cluster.Update` | pkg/controller/migration/reconcile_migration.go:55-58 | a write succeeds exactly if the version read is the newest |
| `Lifecycle.Cluster.Plan` | pkg/controller/table/reconcile_table.go:315-365 | creates or overwrites the object with a fresh plan, approved from the start exactly if the database is deployed immediately |
| `Lifecycle.Cluster.ApproveMigration` | pkg/cli/schemaherokubectlcli/approve_migration.go:70-87 | refused exactly outside the planned phase; otherwise a conditional write of the approval |
| `Lifecycle.Cluster.RejectMigration` | pkg/cli/schemaherokubectlcli/reject_migration.go:70-90 | refused exactly outside the planned phase; otherwise a conditional write of the rejection |
| `Lifecycle.Cluster.ApplyMigration` | pkg/controller/migration/reconcile_migration.go:24-53 | applies exactly the versions that are approved and not executed |
| `Lifecycle.Cluster.StampMigration` | pkg/controller/migration/reconcile_migration.go:55-60 | a conditional write of the execution, and the conflict |
| `Lifecycle.Cluster.ReadMigrationAgain` | pkg/controller/migration/reconcile_migration.go:60-69 | after a conflict the object is read again |
| `Lifecycle.Cluster.StampMigrationAgain` | pkg/controller/migration/reconcile_migration.go:71-75 | the retry stamps the object read again and leaves its phase alone |
| `LifecycleLaws.EveryRunKeeps` | pkg/controller/migration/reconcile_migration.go:24-82 | every interleaving keeps each version an edit of the one before it, and every stamp tied to an apply |
| `LifecycleLaws.StaleWritesNothing` | pkg/controller/migration/reconcile_migration.go:55-58 | in every state a client that has not read the newest version writes nothing, and nobody writes more than one |
| `LifecycleLaws.WritesKeepTheRest` | pkg/cli/schemaherokubectlcli/approve_migration.go:79-82 | an approval, rejection or stamp keeps the text and every stamp but its own, and sets its own phase |
| `LifecycleLaws.PlansStartAfresh` | pkg/controller/table/reconcile_table.go:315-339 | a plan starts unstamped in the planned phase, approved only if deployed immediately, and is created only where there is none |
| `LifecycleLaws.AppliedWasApproved` | pkg/controller/migration/reconcile_migration.go:24-89 | every text ever applied was approved as that exact text, by hand or by an immediate plan, with no plan in between |
| `LifecycleLaws.AppliedWasApprovedByHand` | pkg/cli/schemaherokubectlcli/approve_migration.go:70-87 | in every run without immediate deployment it was approved by hand |
| `LifecycleLaws.RejectedCallsIff` | pkg/controller/table/reconcile_table.go:336-339 | a stored rejected version calls for applying exactly if it is not executed and its plan was immediate |
| `LifecycleLaws.ImmediateIsAppliedThoughRejected` | pkg/controller/table/reconcile_table.go:336-339 | a run in which an immediately deployed migration is rejected and then applied |
| `LifecycleLaws.RejectedIsNeverApplied` | pkg/cli/schemaherokubectlcli/reject_migration.go:79-82 | a stored rejected version whose plan was not immediate never calls for applying and was never applied |
| `LifecycleLaws.RejectedUntilPlanned` | pkg/cli/schemaherokubectlcli/reject_migration.go:79-82 | after a rejection only a new plan leads to an apply, unless the plan was immediate |
| `LifecycleLaws.ExecutedUntilPlanned` | pkg/controller/migration/reconcile_migration.go:84-89 | once an execution is stored nothing calls for applying until a plan overwrites the object |
| `LifecycleLaws.StampedWasApplied` | pkg/controller/migration/reconcile_migration.go:55-58 | a stamp written without conflict is on the version whose text was applied |
| `LifecycleLaws.RetryStampsAppliedText` | pkg/controller/migration/reconcile_migration.go:60-75 | a stamp written after a conflict names an apply before it, and is on that text if nobody planned in between |
| `LifecycleLaws.RetryStampsAppliedPlanIff` | pkg/controller/migration/reconcile_migration.go:60-75 | in every run a stamp written after a conflict is on a plan that was applied exactly if no plan came between the applied version and the stamp, or another executor applied a version of the newer plan before it |
| `LifecycleLaws.StampedPlanAppliedIff` | pkg/controller/migration/reconcile_migration.go:24-89 | a stamped plan is applied, already or in some continuation of the run, exactly if a version of it was approved and not stamped before the stamp |
| `LifecycleLaws.AppliesOfOnePlan` | pkg/controller/migration/reconcile_migration.go:24-82 | two applies of one plan happen only while no execution is stored |
| `LifecycleLaws.ConflictLosesPlan` | pkg/controller/migration/reconcile_migration.go:60-75 | a run in which a plan is stamped executed without being applied, stays so once approved, and is never applied in any continuation |
| `Batch.BatchManager.QueueTable` | pkg/controller/table/batch.go:78-123 | queues or replaces the table and restarts the timer, unless no window is set |
| `Batch.BatchManager.FireTimer` | pkg/controller/table/batch.go:118-120 | a fired timer's callback is due and can no longer be stopped |
| `Batch.BatchManager.ProcessBatch` | pkg/controller/table/batch.go:126-159 | takes every pending table once and clears the queue |
| `Batch.CollectTables` | pkg/controller/table/batch.go:138-142 | every pending table is collected exactly once, in any order |
| `Batch.CollectStatements` | pkg/controller/table/batch.go:183-236 | the statements of the tables that planned any, and the first processed table exists whenever there are statements |
| `BatchTimers.TableContributes` | pkg/controller/table/batch.go:187-226 | in table order a table that differs contributes its schema statements, one in sync that wants seeds exactly its seed statements, every other nothing |
| `BatchTimers.QueueRestarts` | pkg/controller/table/batch.go:110-120 | queueing stops its database's timer and arms a new one; the others run on |
| `BatchTimers.OneTimerAlways` | pkg/controller/table/batch.go:78-145 | in every run in which no callback drains while another timer of its database is armed, no database has two timers armed |
| `BatchTimers.OverlapLeavesTwo` | pkg/controller/table/batch.go:143-145 | after such a callback the next table arms a second timer, in every state |
| `BatchTimers.OverlapHappens` | pkg/controller/table/batch.go:110-145 | a run with such a callback |
| `BatchLaws.EveryRunKeeps` | pkg/controller/table/batch.go:78-159 | every interleaving of queueing, firing and draining keeps the accounting and the timers |
| `BatchLaws.NothingIsForgotten` | pkg/controller/table/batch.go:78-159 | a database with tables waiting always has a callback armed or due |
| `BatchLaws.EveryVersionIsAccounted` | pkg/controller/table/batch.go:78-159 | every version queued is waiting, replaced by a later one of its table, or in exactly one drained batch |
| `BatchLaws.NewestSurvives` | pkg/controller/table/batch.go:100-104 | the newest version of a table waits or is in exactly one batch |
| `BatchLaws.QuietMeansDrained` | pkg/controller/table/batch.go:126-159 | with no timer armed and no callback due nothing waits |
| `Rpc.ReplaceDefaults` | pkg/database/plugin/connection_proxy.go:180-223 | every empty default is replaced in place, the others stay |
| `Rpc.RestoreDefaults` | pkg/database/plugin/rpc.go:399-444 | every sentinel is restored in place, the others stay |
| `Rpc.DefaultsSurviveIff` | pkg/database/plugin/connection_proxy.go:180-223 | column defaults survive replacing, coding and restoring exactly if none is the sentinel |
| `Rpc.CodecAloneLosesEmpty` | pkg/database/plugin/connection_proxy.go:181-184 | without the replacement exactly the tables without an empty default survive |
| `Rpc.PropertiesSurviveIff` | pkg/database/plugin/connection_proxy.go:224-238 | so do the two Cassandra integers, exactly if neither is the sentinel |
| `Rpc.ValueSurvivesIff` | pkg/database/plugin/rpc.go:411-444 | one value survives exactly if it is not the sentinel |
| `Rpc.RPCServer.OpenConnection` | pkg/database/plugin/rpc.go:117-123 | a successful open yields a new connection |
| `Rpc.RPCServer.RegisterConnection` | pkg/database/plugin/rpc.go:125-129 | the connection is entered under the next identifier |
| `Rpc.RPCServer.TakeConnection` | pkg/database/plugin/rpc.go:212-223 | an identifier is looked up and removed at once |
| `Rpc.RPCServer.CloseConnection` | pkg/database/plugin/rpc.go:225-227 | a taken connection is closed |
| `Rpc.EveryRunKeeps` | pkg/database/plugin/rpc.go:117-230 | every interleaving keeps each connection in one place |
| `Rpc.ConnectionsAreSafe` | pkg/database/plugin/rpc.go:117-230 | no identifier is issued twice or comes back once taken, and no connection is closed twice |
| `Rpc.NoConnectionIsLost` | pkg/database/plugin/rpc.go:117-230 | in every run each connection ever opened is about to be entered, in the table, about to be closed, or closed |

## Left out

- Strings are sequences of ASCII characters: multi-byte characters, Unicode blanks and case folding are not modelled.
- Catalog queries, drivers, Kubernetes clients and YAML: listings, versions read and rendered trigger texts are inputs.
- SHA-256 is any function to 64 characters.
- The key that a seed insert may conflict on is an input.
- Foreign keys and primary-key changes of PostgreSQL: the desired pass for foreign keys can drop a key that is still declared, so the plan theorem does not hold for them.
- Each family has its own name map; clashes between families in one server-wide namespace are not modelled.
- A table schema other than `public` in the specification: the trigger builder then creates on `schema.table` but drops on `table`; the trigger section is modelled for one table.
- Dropping a whole table and creating a missing one (plugins/postgres/lib/deploy.go:86-121), except for its indexes.
- Storage parameters of indexes and exclusion constraints take no part in the comparisons; the index printer takes them as an ordered list.
- StoredIndexes.StoredIndexComparesIff: a column that the schema itself writes in double quotes is folded like a bare one, and an operator class is listed as declared, also where it is the default of the column's type.
- Index lists that mix plain columns and expressions are read as expressions by design, so they carry no round-trip law.
- Literals.LiteralReadsBack: octal, hexadecimal and Unicode escapes are outside the modelled literal reader; the writer never emits them.
- Converting existing values to a new type, or to an array of it, is taken to succeed.
- PostgresColumnLaws.SettlesIff: parsing type aliases and parameters is an input, as is the server's name for a type.
- SqliteLaws.AlterReachesDeclared: whether a column without a default can be added as `not null`, and the rebuild itself, depend on the engine.
- Deleting a Migration object is not modelled.
- Applying a migration more than once after a failed status write is possible and not excluded.
- Creating the batch Migration object, its name and table statuses (pkg/controller/table/batch.go:238-325).
- The connection counter is unbounded, and calls that only look a connection up are not modelled.
- Row security toggles and policies of a table that is created, MySQL tables beyond one column, Cassandra, TimescaleDB and rqlite.
