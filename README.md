# Keyset pagination and field validators, in Dafny

This project models two parts of a Symfony bundle for Doctrine MongoDB ODM.

**Keyset ("cursor") pagination.** A client asks for a page of documents with:
- an optional sort field (`order_by`) and direction (`order`);
- an optional limit;
- optionally, a cursor: `starting_after=<id>` or `ending_before=<id>`.

The paginator answers with:
- the page;
- the total count;
- `has_next` and `has_prev` flags;
- `next_url` and `prev_url` links that carry the cursor for the neighbouring page.

There are two paginators:
- The query-builder paginator (`Pagination/Paginator.php`) sorts on the field, then on `id`. It seeks past the anchor document with `field == v && id > id0 || field > v`, reversed for `ending_before`. It fetches the first and last documents of the whole set to compute the flags.
- The aggregation paginator (`Pagination/AggregationPaginator.php`) appends stages to a caller's MongoDB pipeline: the same seek as a `$match`, a `$sort` on the field alone, and a `$limit`. A second pipeline with a `$group` stage gives the count and the bounds. In the model the caller's pipeline is made of `$match`, `$sort` and `$limit` stages only, so its output is always drawn from the store.

In the model:
- The store is a sequence of records, and every query is a pure function of it.
- The query builder is a class whose methods record criteria, sorts and a limit.
- Sorting follows MongoDB's order: null lowest, then the value.
- PHP's loose `in_array` and its `(int)`/`intval` casts of query strings are written out: numeric strings compare by value, and a cast reads the numeric prefix, exponent included.

The main theorems are:
- A page is a window of the filtered set in the order the client asked for.
- No candidate is skipped.
- The flags say exactly whether a record follows or precedes the page.
- The aggregation paginator agrees with the query-builder paginator whenever the sort field has no ties.

**Field validators.** These are the `Text`, `Phone` and `Required` constraint validators. Each one is a chain of guarded early returns:
1. a null the constraint allows passes;
2. a required blank value gets one violation;
3. a value that cannot be cast to a string throws, and so does a normalizer whose no-argument call fails;
4. then the charset check and the length bounds (Text), or the phone-number regular expression (Phone).

In the model:
- A PHP value is a small datatype.
- PHP's `empty`, loose `==` and `(string)` are written out.
- The regular expression `^(\+?\(?\d+-?\)?\s?){1}(\d+-?\s?)+$` is a hand-written recognizer. It is proved equal to the language the expression denotes.
- The `Text` constraint is a class whose constructor rewrites a `length` option into equal `min` and `max` bounds.

## Model

| member | source | states |
|---|---|---|
| Records.FieldValue | Pagination/Paginator.php:423-429 | the reflection read of a property: the identifier for `id`, otherwise present exactly when the field is set |
| Records.FindById | Pagination/Paginator.php:141-144 | the document found has the requested identifier and is in the store; none is found only when no document has it |
| Records.FindByIdOfMember | Pagination/Paginator.php:141 | with unique identifiers, looking up a stored document's identifier returns that document |
| Records.Select | Pagination/Paginator.php:450 | the query result: a sub-multiset of the store holding exactly the documents that satisfy every criterion |
| Records.SelectDistinct | Pagination/Paginator.php:450 | a query over documents with unique identifiers returns documents with unique identifiers |
| Records.SelectAppend | Pagination/Paginator.php:433-441 | `addAnd` narrows the result to the documents that also satisfy the new criterion |
| Sorting.Flip | Pagination/Paginator.php:179-181 | inverting a direction gives the other direction, with the opposite sign |
| Sorting.BeforeFlipAll | Pagination/Paginator.php:179-181 | inverting every direction of a sort exactly reverses the order it imposes |
| Sorting.Sort | Pagination/Paginator.php:191-198 | the sorted batch is a permutation of its input |
| Sorting.SortSorted | Pagination/Paginator.php:191-198 | the sorted batch is ordered by the requested keys |
| Sorting.SortMembers | Pagination/Paginator.php:191-198 | sorting neither adds nor drops a document |
| Sorting.SortFirstIsLeast | Pagination/Paginator.php:200-213 | the first sorted document comes no later than any input document |
| Sorting.SortLastIsGreatest | Pagination/Paginator.php:221-237 | the last sorted document comes no earlier than any input document |
| Sorting.SortDistinct | Pagination/Paginator.php:191-198 | sorting keeps identifiers unique |
| Sorting.NotAfterTransitive | Pagination/Paginator.php:191-198 | the store's order is transitive |
| Sorting.NotAfterTotal | Pagination/Paginator.php:191-198 | any two documents are comparable in the store's order |
| Sorting.LexLtTransitive | Pagination/Paginator.php:191-198 | comparing sort keys lexicographically is transitive |
| Sorting.LexLtTotal | Pagination/Paginator.php:191-198 | two different sort keys of equal length are ordered one way or the other |
| Sorting.Window | Pagination/Paginator.php:112-119 | `limit(n)` keeps a prefix: the whole batch for no limit or 0, otherwise the first \|n\| documents |
| Sorting.Reverse | Pagination/Paginator.php:453-455 | `array_reverse`: the i-th document is the input's i-th from the end |
| Sorting.ReverseMembers | Pagination/Paginator.php:453-455 | reversing neither adds nor drops a document |
| Query.Get | Pagination/Paginator.php:161 | `$query->get($key)` is defined exactly when the key occurs, and returns a value stored under it |
| Cursor.GetSkipData | Pagination/Paginator.php:125-150 | no cursor key means NO_SKIP; `starting_after` wins over `ending_before`; a cursor resolves to the stored document with that identifier, or fails with `lcv.document_not_found` |
| Cursor.CursorResolves | Pagination/Paginator.php:133-144 | a `starting_after` cursor that carries a stored document's identifier resolves to that document |
| PhpStrings.IntValOfIntToString | Pagination/Paginator.php:269 | an identifier written into a link and read back by the `(int)` cast is the same identifier |
| PhpStrings.IntToStringInjective | Pagination/Paginator.php:269 | different identifiers give different cursor values |
| PhpStrings.IntVal | Pagination/Paginator.php:141 | the `(int)` cast saturates to the 64-bit range and gives 0 when the string has no numeric prefix |
| PhpStrings.IntValExponent | Pagination/AggregationPaginator.php:94 | `intval("1e2")` is 100: the exponent is applied |
| PhpStrings.IntValTruncates | Pagination/AggregationPaginator.php:94 | `intval("2.9")` is 2: a fraction is truncated toward zero |
| PhpStrings.IntValStopsAtGarbage | Pagination/AggregationPaginator.php:94 | `intval("12abc")` is 12: reading stops at the first character that cannot continue the number |
| PhpStrings.IntValNoNumber | Pagination/AggregationPaginator.php:94 | `intval("abc")` is 0 |
| PhpStrings.LooseStringEqReflexive | Pagination/Paginator.php:172 | every string is loosely equal to itself |
| PhpStrings.LooseStringEqSymmetric | Pagination/Paginator.php:172 | loose equality does not depend on the order of its operands |
| PhpStrings.LooseEqOfIntStrings | Pagination/Paginator.php:172 | two printed integers are loosely equal exactly when the integers are equal |
| PhpStrings.LooseLeadingZero | Pagination/Paginator.php:172 | `"-01" == "-1"`: numeric strings compare by value |
| PhpStrings.LooseZeroFraction | Pagination/Paginator.php:172 | `"-1.0" == "-1"` |
| PhpStrings.LooseLeadingSpace | Pagination/Paginator.php:172 | `" -1" == "-1"`: leading whitespace is skipped |
| PhpStrings.NotLooseTrailingGarbage | Pagination/Paginator.php:172 | `"-1x" != "-1"`: a string with trailing garbage is not numeric and compares as text |
| Query.LooseMemberIff | Pagination/Paginator.php:172 | the `in_array` scan finds a string exactly when some entry is loosely equal to it |
| Query.LooseInExact | Pagination/Paginator.php:172 | an entry given verbatim is always found |
| Query.LooseInNonNumeric | Pagination/AggregationPaginator.php:141 | a non-numeric string is found exactly when it is an entry verbatim |
| Query.DefaultDescendantSpellings | DependencyInjection/Configuration.php:30 | with the default descendant values, `-01`, `-1.0` and ` -1` all select descending order |
| Query.DefaultDescendantMisses | DependencyInjection/Configuration.php:30 | with the default descendant values, `-1x` and `Desc` select ascending order |
| Paginator.GetSortData | Pagination/Paginator.php:158-184 | the requested field exactly when it is non-empty, mapped and not loosely equal to a forbidden field, `id` otherwise; `desc` exactly when the token is loosely equal to a descendant value, inverted for ENDING_BEFORE |
| Paginator.SortDataInversion | Pagination/Paginator.php:178-181 | paging backwards keeps the field and inverts the direction the client asked for |
| Paginator.StagesOrder | Pagination/Paginator.php:191-198 | the sort `applySort` requests orders by the field value (null lowest), then by identifier |
| Paginator.StagesTotal | Pagination/Paginator.php:191-198 | with `id` as the last key, two different documents never tie |
| Paginator.StagesFlip | Pagination/Paginator.php:191-198 | sorting in the other direction inverts both keys |
| Paginator.SeekMatches | Pagination/Paginator.php:431-442 | the seek condition holds exactly for an equal value with a later identifier, or a strictly later non-null value |
| Paginator.SeekIsAfter | Pagination/Paginator.php:431-442 | whatever the seek lets through lies strictly after the anchor, and the anchor never passes; the converse holds when both agree on whether the field is null |
| Paginator.SeekSkipsPastNull | Pagination/Paginator.php:431-442 | as written: a document with a value lies after an anchor without one, yet the seek rejects it |
| Paginator.SeekAfterExact | Pagination/Paginator.php:431-442 | the corrected seek condition holds exactly for the documents strictly after the anchor |
| Paginator.SortStrict | Pagination/Paginator.php:445-450 | with unique identifiers the sorted batch is strictly increasing |
| Paginator.SortedBatch | Pagination/Paginator.php:445-450 | the limited batch is drawn from the input and strictly increasing, and everything left out comes after everything kept |
| Paginator.SortedFirstIsMinimum | Pagination/Paginator.php:200-213 | the first document of the sorted query precedes every other document of the set |
| Paginator.BoundariesAreExtremes | Pagination/Paginator.php:200-237 | `getFirstDocument` and `getLastDocument` return the minimum and the maximum of the filtered set |
| Paginator.EffectiveOrder | Pagination/Paginator.php:178-198 | the effective order is the client's order, reversed when paging backwards |
| Paginator.SeekInRange | Pagination/Paginator.php:423-442 | read in the client's order, the seek keeps documents on the cursor's side of the anchor |
| Paginator.SelectedCandidates | Pagination/Paginator.php:431-450 | the page query selects filtered documents on the cursor's side, and all such documents that agree with the anchor on nullness |
| Paginator.PageWindow | Pagination/Paginator.php:431-455 | the page lies on the cursor's side, is strictly increasing in the client's order, and skips no candidate |
| Paginator.FlagsCorrect | Pagination/Paginator.php:296-331 | `has_next` holds iff a record of the set follows the page, and `has_prev` iff one precedes it, in every cursor mode |
| Paginator.FilterCriteria | Pagination/Paginator.php:369-371 | every filter becomes its criterion in order; the first unknown name fails with `lcv.invalid_pagination_filter` |
| Paginator.ApplyFilter | Pagination/Paginator.php:94-107 | an unknown field fails and leaves the query unchanged; a known one adds exactly its criterion |
| Paginator.ApplyLimit | Pagination/Paginator.php:112-119 | a truthy limit parameter sets the limit, otherwise nothing changes |
| Paginator.ApplySort | Pagination/Paginator.php:191-198 | appends a sort on the field (unless it is `id`), then on `id`, and changes nothing else |
| Paginator.GetFirstDocument | Pagination/Paginator.php:200-213 | returns the least document of the filtered set under the composite order |
| Paginator.GetLastDocument | Pagination/Paginator.php:221-237 | returns the greatest document of the filtered set under the composite order |
| Paginator.PageOf | Pagination/Paginator.php:383-472 | fails exactly when the cursor does not resolve; the total counts the filtered set whatever the cursor |
| Paginator.Paginate | Pagination/Paginator.php:383-472 | the imperative `paginate` returns exactly `PageOf` of the query's criteria |
| Paginator.SimplePaginate | Pagination/Paginator.php:360-374 | a bad filter fails before any query; otherwise the result is `paginate` on the filters |
| Paginator.PageContents | Pagination/Paginator.php:383-472 | the page holds only non-deleted filtered documents on the cursor's side, strictly increasing, with no candidate skipped |
| Paginator.PageFlagsAndLinks | Pagination/Paginator.php:383-472 | the flags are exact, and each link is present per the mode, limit and flag table and carries the right cursor |
| NextData.ComputeFlags | Pagination/Paginator.php:298-331 | the flags compare the batch's ends with the first and last documents, swapped for ENDING_BEFORE, and are false for an empty batch |
| NextData.AppendEntries | Pagination/Paginator.php:254-256 | the inner loop appends the array parameter's entries, and `$first` survives it unless cleared per entry |
| NextData.BuildQueryUrl | Pagination/Paginator.php:242-265 | the loop builds the base URL followed by every non-cursor parameter |
| NextData.Pairs | Pagination/Paginator.php:246-251 | the links carry every parameter except the two cursor keys |
| NextData.PaginationUrls | Pagination/Paginator.php:267-289 | the next link carries the last record's identifier and the previous link the first's; an empty batch gets no link |
| NextData.ProvideNextData | Pagination/Paginator.php:296-349 | the links are built from the flags (`isFirst = !has_prev`, `isLast = !has_next`) |
| NextData.SerializeJoined | Pagination/AggregationPaginator.php:184-204 | the corrected query string joins pairs with `?` first and `&` after (a leading empty array is the one exception) |
| NextData.SerializeVariantsAgree | Pagination/Paginator.php:253-264 | the two paginators copy the query string identically unless it leads with an array of two or more entries |
| NextData.PaginatorRepeatsQuestionMark | Pagination/Paginator.php:254-256 | as written: `tags[]=a&tags[]=b` is copied as `?tags[0]=a?tags[1]=b` |
| NextData.SerializeOnlyCursor | Pagination/Paginator.php:248-250 | cursor parameters are never copied |
| NextData.CursorLinkWithoutQuery | Pagination/Paginator.php:268-270 | as written: with no other parameters the cursor is joined to the path with `&` and no `?` |
| NextData.LinkWithCursorWellFormed | Pagination/Paginator.php:268-270 | the corrected link always opens its query string with `?` and puts `&` before the cursor exactly when other pairs precede it |
| AggregationPaginator.GetSortData | Pagination/AggregationPaginator.php:135-161 | the requested text when it is loosely equal to an available field, `id` otherwise; -1 iff the token is loosely equal to a descendant value, negated for ENDING_BEFORE |
| AggregationPaginator.DirectionsAgree | Pagination/AggregationPaginator.php:146-158 | both paginators read the order token alike: 1/-1 is the sign of the query-builder direction |
| AggregationPaginator.RequestedOrder | Pagination/AggregationPaginator.php:155-158 | paging backwards keeps the field and negates the client's direction |
| AggregationPaginator.RunStagesFails | Pagination/AggregationPaginator.php:89-96 | a pipeline fails exactly when one of its `$limit` values is not positive |
| AggregationPaginator.RunLastLimitFails | Pagination/AggregationPaginator.php:94 | a limit parameter that casts to 0 or less makes the page pipeline fail |
| AggregationPaginator.RunStagesMembers | Pagination/AggregationPaginator.php:395 | every stage only keeps or reorders documents |
| AggregationPaginator.Group | Pagination/AggregationPaginator.php:321-326 | `$group` counts the stream and takes its first and last document; an empty stream gives no group |
| AggregationPaginator.ApplyLimit | Pagination/AggregationPaginator.php:89-96 | appends at most one `$limit` stage and keeps the given pipeline as its prefix |
| AggregationPaginator.PageOf | Pagination/AggregationPaginator.php:294-416 | a cursor that does not resolve fails the request with its error |
| AggregationPaginator.Assemble | Pagination/AggregationPaginator.php:338-415 | bounds only for a positive count, the batch reversed for ENDING_BEFORE, the flags of `provideNextData`, and the links of the link table for those flags over the rebuilt query string |
| AggregationPaginator.Paginate | Pagination/AggregationPaginator.php:294-416 | the imperative `paginate` returns exactly `PageOf` |
| AggregationPaginator.AssemblePage | Pagination/AggregationPaginator.php:397-415 | the end of `paginate` returns exactly `Assemble` |
| AggregationPaginator.TotalIgnoresCursor | Pagination/AggregationPaginator.php:319-333 | the total is the size of the caller's pipeline output, whatever the cursor |
| AggregationPaginator.RunSeek | Pagination/AggregationPaginator.php:359-373 | the `$match` stage keeps the documents the query-builder seek keeps |
| AggregationPaginator.PagePipeline | Pagination/AggregationPaginator.php:359-392 | seek, sort on the field, limit: the pipeline returns the limited, sorted candidates |
| AggregationPaginator.SortWithoutTies | Pagination/AggregationPaginator.php:387-389 | without ties, `$sort` on the field alone orders like the field-then-identifier sort |
| AggregationPaginator.SortedLastIsMaximum | Pagination/AggregationPaginator.php:342-343 | the last sorted document is the one `getLastDocument` would return |
| AggregationPaginator.BoundsWithoutTies | Pagination/AggregationPaginator.php:319-344 | without ties, the `$group` bounds are the query-builder paginator's first and last documents |
| AggregationPaginator.DataWithoutTies | Pagination/AggregationPaginator.php:359-400 | without ties, the page pipeline returns the query-builder paginator's page |
| AggregationPaginator.SameAsQueryBuilder | Pagination/AggregationPaginator.php:294-416 | without ties, the page and its flags are those of the query-builder paginator over the pipeline output |
| AggregationPaginator.PageWithoutTies | Pagination/AggregationPaginator.php:294-416 | without ties, the page is on the cursor's side, strictly increasing, and skips no candidate that agrees with the anchor on nullness |
| AggregationPaginator.FlagsWithoutTies | Pagination/AggregationPaginator.php:235-285 | without ties, `has_next` and `has_prev` say exactly whether a record follows or precedes the page |
| AggregationPaginator.PageLinks | Pagination/AggregationPaginator.php:397-415 | a page's links are those of the link table for its own flags, mode and limit |
| AggregationPaginator.PageFlagsAndLinks | Pagination/AggregationPaginator.php:294-416 | without ties, the flags are exact, and each link is present per the mode, limit and flag table and carries the right cursor |
| AggregationPaginator.TieSkipsRecord | Pagination/AggregationPaginator.php:359-389 | as written: with two documents tied on the sort field, walking forward from the first page goes from [A] straight to [C], so B is missed |
| PhpValues.IsBlank | Constraints/TextValidator.php:24 | blank holds for exactly false, null, "" and the empty array; "0" and 0 are not blank |
| PhpValues.IsStringable | Constraints/TextValidator.php:35 | castable holds for exactly scalars other than null, and objects with `__toString` |
| PhpValues.ToText | Constraints/TextValidator.php:39 | the cast keeps strings, writes integers in decimal (read back by `(int)`), and gives "" exactly for false |
| Violations.CodesDistinct | Constraints/Text.php:15-18 | the error codes are pairwise distinct, so a violation's code names the check that failed |
| TextConstraint.Text.constructor | Constraints/Text.php:20-32 | every property starts at its default (`required`, not `allowNull`, UTF-8, the `lcv.*` messages) and each option that is set overrides it |
| TextConstraint.RewriteLength | Constraints/Text.php:37-40 | `length` without `min` and `max` becomes `min = max = length` and is removed; otherwise the options are untouched |
| TextConstraint.NewText | Constraints/Text.php:35-47 | `length` next to `min` or `max` is an invalid option; a non-callable normalizer throws; otherwise the bounds and properties are as given |
| TextValidator.LooselyEqual | Constraints/TextValidator.php:63 | PHP's loose `==` on bounds: equal integers, or null against null or 0 |
| TextValidator.CheckLength | Constraints/TextValidator.php:59-85 | at most one violation; none exactly when the length is within the bounds that are set; too long before too short |
| TextValidator.Validate | Constraints/TextValidator.php:12-86 | at most one violation; a value past the guards throws exactly when it cannot be cast (an unexpected-value exception) or, castable, meets a normalizer whose no-argument call fails (an error) |
| TextValidator.NullAllowed | Constraints/TextValidator.php:19-21 | a null the constraint allows passes |
| TextValidator.BlankRejected | Constraints/TextValidator.php:24-31 | a required blank value gets exactly the blank violation; "0" and 0 never do, and throw only when the normalizer's call fails |
| TextValidator.FailingNormalizerThrows | Constraints/TextValidator.php:41-43 | a normalizer whose no-argument call fails, as a one-argument callable such as `trim` does, throws on every castable value past the guards |
| TextValidator.NullNeitherAllowedNorRequired | Constraints/TextValidator.php:35-37 | a null neither allowed nor required throws an unexpected-value exception |
| TextValidator.InvalidCharsetSkipsLength | Constraints/TextValidator.php:46-57 | a badly encoded string gets exactly the invalid-characters violation, whatever its length |
| TextValidator.ValidIffWithinBounds | Constraints/TextValidator.php:59-86 | a value reaching the length checks passes exactly when its length is within the bounds |
| TextValidator.TooLong | Constraints/TextValidator.php:62-72 | above the maximum: the too-long violation with the maximum as limit, worded as exact when the bounds are loosely equal |
| TextValidator.TooShort | Constraints/TextValidator.php:75-85 | below the minimum and not above the maximum: the too-short violation, worded as exact when the bounds are loosely equal |
| TextValidator.TooLongWins | Constraints/TextValidator.php:62-85 | with the bounds the wrong way round, only the too-long violation is reported |
| TextValidator.ZeroMaxUsesExactMessage | Constraints/TextValidator.php:63 | with maximum 0 and no minimum, `null == 0` selects the exact-length message |
| TextValidator.EqualBoundsUseExactMessage | Constraints/TextValidator.php:62-85 | with equal bounds (a `length` option), every length violation uses the exact message |
| PhonePattern.RecognizeIsPattern | Constraints/PhoneValidator.php:48 | the recognizer accepts exactly the strings the regular expression matches, final newline before `$` included |
| PhonePattern.BodySound | Constraints/PhoneValidator.php:48 | whatever the recognizer accepts is a head group followed by unit groups |
| PhonePattern.BodyComplete | Constraints/PhoneValidator.php:48 | every head group followed by unit groups is accepted |
| PhonePattern.UnitsSound | Constraints/PhoneValidator.php:48 | the repetition recognizer accepts only sequences of unit groups |
| PhonePattern.UnitsComplete | Constraints/PhoneValidator.php:48 | every sequence of unit groups is accepted by the repetition recognizer |
| PhonePattern.BodyShape | Constraints/PhoneValidator.php:48 | an accepted body is a lead, a digit run, then digits, `-`, `)` and spaces, with the `)` only right after the run or its `-` |
| PhonePattern.AcceptedChars | Constraints/PhoneValidator.php:48 | an accepted string holds only digits, `+`, `(`, `)`, `-` and white space; a letter means rejection |
| PhonePattern.AcceptedHasTwoDigits | Constraints/PhoneValidator.php:48 | an accepted string holds at least two digits |
| PhonePattern.DigitRunAccepted | Constraints/PhoneValidator.php:48 | a run of two or more digits is accepted |
| PhonePattern.LeadOnlyBeforeDigits | Constraints/PhoneValidator.php:48 | `+` and `(` appear only before the first digit |
| PhonePattern.ParenPlacement | Constraints/PhoneValidator.php:48 | a `)` follows the lead and the first digit run directly, or after one `-` |
| PhonePattern.ParenAtMostOnce | Constraints/PhoneValidator.php:48 | an accepted string holds at most one `)` |
| PhoneValidator.Subject | Constraints/PhoneValidator.php:48 | `preg_match` takes a castable value as its cast and null as "", and rejects anything else with a type error |
| PhoneValidator.Validate | Constraints/PhoneValidator.php:13-54 | at most one violation, blank or pattern; an allowed null passes; it throws the normalizer error exactly when a value past the guards meets a normalizer whose no-argument call fails |
| PhoneValidator.BlankRejected | Constraints/PhoneValidator.php:25-32 | a required blank value gets exactly the blank violation, with the Text constraint's code |
| PhoneValidator.PassesIffPatternMatches | Constraints/PhoneValidator.php:38-53 | past the guards: throws iff not castable, passes iff the pattern matches the cast string, else one pattern violation |
| PhoneValidator.NormalizerResultIsCast | Constraints/PhoneValidator.php:34-40 | the normalizer runs before the type check, so its result is what must be castable |
| PhoneValidator.PassedShape | Constraints/PhoneValidator.php:42-53 | a value that passes casts to a string of phone characters with at least two digits |
| PhoneValidator.LetterRejected | Constraints/PhoneValidator.php:48-53 | a string with a letter gets the pattern violation |
| PhoneValidator.SingleDigitRejected | Constraints/PhoneValidator.php:48-53 | a single digit, "0" included, gets the pattern violation |
| PhoneValidator.DigitRunPasses | Constraints/PhoneValidator.php:48-53 | a run of two or more digits passes |
| RequiredValidator.Validate | Constraints/RequiredValidator.php:12-32 | never throws; one violation exactly when required, blank, and not an allowed null |
| RequiredValidator.BlankValues | Constraints/RequiredValidator.php:24-31 | a required false, "" or empty array is reported; null only when not allowed; everything else, "0" and 0 included, passes |
| RequiredValidator.NotRequiredPasses | Constraints/RequiredValidator.php:24-32 | a constraint that is not required reports nothing |

## Left out

- The Doctrine ODM store, the `DocumentManager` and MongoDB itself are modelled as a finite sequence of records in natural order.
  - Every query is `Select` over it, a count is its size, and `find` is `FindById`.
- Field values are integers or null, and identifiers are integers. Strings, floats, dates and embedded documents as sort values are not modelled.
- A `references` filter compares a stored reference identifier. Association semantics beyond that belong to the store.
- Reflection (`getReflectionProperty`, `setAccessible`) is the accessor `FieldValue`.
- The request (`RequestStack`, `getSchemeAndHttpHost`, `getPathInfo`) is an origin string plus the ordered query parameters.
- `configureManager` and the manager registry are not modelled.
- The order of documents that tie on every `$sort` key is unspecified in MongoDB. The model takes their incoming order.
- The commented-out soft-delete and builder code of the aggregation paginator is not modelled. Neither is its unused `applySort`.
- `mb_check_encoding` and `mb_strlen` are the parameter `Encoding`.
- The violation builder's `{{ value }}` and `{{ charset }}` parameters, `formatValue`, `setPlural` and `setInvalidValue` are not modelled. A violation keeps its code, message key and `{{ limit }}`.
- Both validators call the normalizer with no arguments and apply what that call returns (`call_user_func($normalizer)($value)`, Constraints/TextValidator.php:42 and Constraints/PhoneValidator.php:35, 45). The model keeps that convention: a normalizer either makes a callable, given by its effect, or its no-argument call fails.
  - A failing call covers a one-argument callable such as `trim`, which the Text constructor accepts as callable, and one that returns a value PHP cannot call. Both are thrown as one error kind; PHP's `ArgumentCountError` and `Error` are not told apart.
  - The callable a Text normalizer makes maps strings to strings; one that returns another type, or throws when applied, is not modelled.
  - The callable a Phone normalizer makes maps values to values and is applied twice, as the validator does.
- Floats are not modelled as validator inputs. PHP treats `1.5` as a scalar that casts to `"1.5"`, and `0.0` as empty, so Text, Phone and Required would treat float inputs by those rules; the model's values have no float case.
- The `instanceof` guards that throw `UnexpectedTypeException` are enforced by the types of the model.
- Of Symfony's parent `Constraint` constructor, only the assignment of options and the rejection of a leftover `length` are modelled. Groups, payload, default options and non-array options are not.
- An option given as an explicit null counts as not set.
- Constraints/Required.php is not part of this model: the Required constraint's code and defaults are fields of `RequiredValidator.Required`.
- Constraints/Phone.php appears only through `PhoneValidator.DefaultPhone` and the error code.
- PHP strings are byte strings; the model uses characters.
- PCRE failures such as the backtracking limit (where `preg_match` returns false) are not modelled.
- Constraints/EmailValidator.php, Formulary/FormularyChecker.php and the DependencyInjection wiring are not part of this model.
- The caller's aggregation pipeline is built from `$match`, `$sort` and `$limit` stages only. Stages that repeat a document (`$unwind`), reshape it (`$project`) or join others (`$lookup`) are not modelled.
  - So the pipeline output is always drawn from the store, and with unique identifiers in the store its identifiers stay unique. `RunStagesMembers`, `SameAsQueryBuilder`, `PageWithoutTies` and `FlagsWithoutTies` rely on that.
- The aggregation model assumes that every pipeline document exposes its identifier as the field `id`, and each sort field under its property name. It reads both through the same `FieldValue` as the hydrated documents.
  - The aggregation paginator reads the raw array entry `['id']` in the `$match` seek, in the flags and in every link (Pagination/AggregationPaginator.php:208-226, 243-264, 366-369). It also uses the property name as the raw field name in `$sort` and `$match` (:320, :366-369, :388).
  - Doctrine ODM stores the identifier as `_id`, so on a collection's own documents these reads find nothing unless the caller's pipeline adds an `id` field. No stage that adds or renames a field (`$addFields`, `$project`) is modelled, so this case is not captured.
  - `SeekStages`, `RunSeek`, `Assemble`, `SameAsQueryBuilder`, `FlagsWithoutTies` and `PageFlagsAndLinks` rest on this assumption.
- Query parameters are an ordered list of key and value pairs. Two cases that no PHP request produces are not excluded:
  - Duplicate keys: a Symfony query bag keeps the last of a duplicate key. `Query.Get` returns the first match, and `Serialize` copies every duplicate.
  - Nested arrays: an array value holds strings only, so the `Array` text that PHP prints for a nested array is not modelled.
- PHP's loose comparison of two numeric strings is modelled on exact decimal values. PHP compares them as integers when both fit in 64 bits and as doubles otherwise, so two long numbers that round to the same double are loosely equal in PHP but not in the model.
- PhpStrings.IntVal: a number whose value overflows a double (`1e999`) is saturated, as for any out-of-range value. PHP gives 0 for an infinite value. Rounding of long fractions to a double before truncation is not modelled either.
- Numeric strings follow PHP 8: trailing whitespace is allowed. Hexadecimal, octal and binary spellings are not numeric strings, as in PHP 7 and 8.
- AggregationPaginator.GetSortData: with loose matching the chosen field is the requested text, which is loosely equal to, but not necessarily one of, the available fields. The contract promises only the loose membership.
- Concurrent writes between the count, boundary and page queries are not modelled: the model reads one snapshot.
- Paginator.PageWindow: completeness is stated only for candidates that agree with the anchor on whether the sort field is null. The seek as written loses the others; see the findings.
- Paginator.PageContents: the same nullness hypothesis as `PageWindow`.
- Paginator.SeekIsAfter: the converse direction holds only under the same nullness hypothesis.
- AggregationPaginator.PageWithoutTies: stated only when no two documents share a sort value, and its completeness has the same nullness hypothesis as `PageWindow`. With ties the pager can skip documents; see the findings.
- AggregationPaginator.FlagsWithoutTies: stated only when the sort field has no ties.
- PhoneValidator.PassesIffPatternMatches: stated only for a constraint without a normalizer.

## Findings

| source | as written | input that shows it | evidently intended | confidence | as-written member | corrected member |
|---|---|---|---|---|---|---|
| Pagination/Paginator.php:254-256 | `$first` is not cleared inside the loop over an array parameter's entries | query `tags[0]=a&tags[1]=b` gives `?tags[0]=a?tags[1]=b` | `&` between entries, as the aggregation paginator does | high, not executed | NextData.PaginatorRepeatsQuestionMark | NextData.SerializeJoined |
| Pagination/Paginator.php:268-270 | the cursor is always joined with `&` | a request whose only parameter is `ending_before=3` gets the next link `<path>&starting_after=<id>` | `?` when no other parameter precedes the cursor | high, not executed | NextData.CursorLinkWithoutQuery | NextData.LinkWithCursorWellFormed |
| Pagination/Paginator.php:431-442 | the seek compares the sort field with `$gt`/`$lt` against the anchor's value, which never matches when that value is null | ascending by `score`, anchor without a score, record with score 5: the record comes later but is never shown | a condition that admits every record strictly after the anchor, null values included | medium, not executed | Paginator.SeekSkipsPastNull | Paginator.SeekAfterExact |
| Pagination/AggregationPaginator.php:387-389 | `$sort` is on the sort field alone, while the seek breaks ties by `id` | records A(id 2, v 1), B(id 1, v 1), C(id 3, v 2), limit 1: the first page is [A] and its next page is [C], so walking forward misses B (only `ending_before=2` shows it) | sort on the field then `id`, as the query-builder paginator does | high, not executed | AggregationPaginator.TieSkipsRecord | Paginator.PageWindow |
