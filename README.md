# Email address data service, modelled in Dafny

This project models the core of `EmailAddressDataServiceImpl` from the
everit emailaddress component. The component stores email addresses and
connects each stored address to a verification subject of an external
verification engine. It then mails accept and reject tokens to the address
and maps a presented token back to the address record.

The project has four files:

- `wrappers.dfy` (module `Wrappers`): `Option`, `Result` and `Outcome`.
  They stand in for Java `null`, for return values and for thrown exceptions.
- `email_pattern.dfy` (module `EmailPattern`): the syntax check behind
  `EMAIL_PATTERN` and `validateEmailAddress`.
  - `ValidateEmailAddress` is a left-to-right scanner over `seq<char>` with
    one phase per position in the pattern.
  - `IsEmailAddress` states the pattern's language on the input's parts. It
    has exactly one `@`. The local part's `.`-segments are non-empty, and `+`
    may appear only in the first segment. The domain has at least two
    `.`-labels: the first over letters, digits and `-`, the middle ones
    alphanumeric, and the last at least two letters.
  - The two are proved to accept the same strings.
- `email_examples.dfy` (module `EmailExamples`): the accept and reject lists
  of the service's integration test, each address proved valid or invalid.
- `email_address_data.dfy` has two modules.
  - `EmailAddressData` holds the record store, a class
    `EmailAddressDataService`:
    - the persisted records are a `map<int, Record>`;
    - sent mails are an `outbox`;
    - calls into the verification engine are recorded in `engineCalls`;
    - `nextId` stands for the store's id generator.
  - `EmailAddressDataLifecycle` holds the properties that span several
    operations.

Engine replies enter each operation as `Option` parameters, with `None`
where the engine returns null:

- `requestReply` and `creationReply` for `createVerificationRequest`;
- `verdict` for `verifyEmailAddress`;
- `verifiedUntil`, the engine's table of verified-until dates, for
  `isEmailAddressVerified`.

The wall clock read by `isEmailAddressVerified` is the parameter `now`.
Dates are milliseconds as `int`.

## Model

| member | source | states |
|---|---|---|
| EmailPattern.ValidateEmailAddressCorrect | core/src/main/java/org/everit/emailaddress/core/EmailAddressDataServiceImpl.java:70-72 | the scanner accepts a string iff it is in the pattern's language IsEmailAddress (one '@'; local segments non-empty with '+' only in the first; at least two domain labels, first over [A-Za-z0-9-], middle alphanumeric, last two or more letters) |
| EmailPattern.ExactlyOneAt | core/src/main/java/org/everit/emailaddress/core/EmailAddressDataServiceImpl.java:70-72 | every accepted string contains exactly one '@' |
| EmailPattern.RunAccepts | core/src/main/java/org/everit/emailaddress/core/EmailAddressDataServiceImpl.java:383-387 | from every phase, the scan of the rest of the input ends in the accepting phase iff the rest completes the pattern (whole-input match, as `matches()` demands) |
| EmailPattern.IsDomainLang | core/src/main/java/org/everit/emailaddress/core/EmailAddressDataServiceImpl.java:71-72 | the part after '@' is read to acceptance iff it is a domain of the pattern |
| EmailPattern.EmailAddressIsLang | core/src/main/java/org/everit/emailaddress/core/EmailAddressDataServiceImpl.java:70-72 | the split-based language is the language accepted from the start phase |
| EmailPattern.LocalStep | core/src/main/java/org/everit/emailaddress/core/EmailAddressDataServiceImpl.java:71 | reading one non-'@' character of the local part moves to the phase whose remaining language is the rest of the local-part condition |
| EmailPattern.DomainStep | core/src/main/java/org/everit/emailaddress/core/EmailAddressDataServiceImpl.java:72 | reading one character of the domain moves to the phase whose remaining language is the rest of the domain condition |
| EmailPattern.AtStep | core/src/main/java/org/everit/emailaddress/core/EmailAddressDataServiceImpl.java:71 | '@' is accepted only at the end of a non-empty local segment and starts the domain |
| EmailPattern.DomainLangNoAt | core/src/main/java/org/everit/emailaddress/core/EmailAddressDataServiceImpl.java:72 | a domain that completes the pattern contains no '@' |
| EmailPattern.EndOfInput | core/src/main/java/org/everit/emailaddress/core/EmailAddressDataServiceImpl.java:72 | the input may end only inside a last label of two or more letters |
| EmailPattern.RunAppend | core/src/main/java/org/everit/emailaddress/core/EmailAddressDataServiceImpl.java:383-387 | scanning a + b is scanning a, then b |
| EmailPattern.RejectStays | core/src/main/java/org/everit/emailaddress/core/EmailAddressDataServiceImpl.java:383-387 | once no continuation can match, none will |
| EmailPattern.JoinSplit | core/src/main/java/org/everit/emailaddress/core/EmailAddressDataServiceImpl.java:70-72 | splitting on a separator loses nothing: joining the parts back gives the input |
| EmailPattern.SplitLength | core/src/main/java/org/everit/emailaddress/core/EmailAddressDataServiceImpl.java:70-72 | a string has one part more than it has separators |
| EmailPattern.SplitPartsSeparatorFree | core/src/main/java/org/everit/emailaddress/core/EmailAddressDataServiceImpl.java:70-72 | no part contains the separator |
| EmailPattern.SplitWithoutSeparator | core/src/main/java/org/everit/emailaddress/core/EmailAddressDataServiceImpl.java:70-72 | a string without the separator is its own only part |
| EmailPattern.SplitWithSeparator | core/src/main/java/org/everit/emailaddress/core/EmailAddressDataServiceImpl.java:70-72 | a string with the separator has at least two parts |
| EmailPattern.AllInCons | core/src/main/java/org/everit/emailaddress/core/EmailAddressDataServiceImpl.java:71-72 | a class word extended by one character stays in the class iff that character is in it |
| EmailPattern.LaterLocalSegmentsCons | core/src/main/java/org/everit/emailaddress/core/EmailAddressDataServiceImpl.java:71 | the later local segments are all words over [_A-Za-z0-9-] iff the first of them is and the rest are |
| EmailPattern.TrailingLabelsCons | core/src/main/java/org/everit/emailaddress/core/EmailAddressDataServiceImpl.java:72 | the middle domain labels are all alphanumeric words iff the first of them is and the rest are |
| EmailPattern.SeparatorsInNoClass | core/src/main/java/org/everit/emailaddress/core/EmailAddressDataServiceImpl.java:71-72 | neither '.' nor '@' belongs to any character class of the pattern |
| EmailExamples.AcceptListAccepted | itests/core/src/main/java/org/everit/emailaddress/itests/core/EmailAddressDataServiceTestImpl.java:71-76 | every address of the test's valid list (for example test+100@gmail.com and test-100@yahoo-test.com) passes the validator, so saving it succeeds |
| EmailExamples.RejectListRejected | itests/core/src/main/java/org/everit/emailaddress/itests/core/EmailAddressDataServiceTestImpl.java:57-61 | every address of the test's invalid list (for example test..2002@gmail.com, test.@gmail.com, test@gmail.com.1a and test123@gmail.a) fails the validator, so saving it raises InvalidEmailAddress |
| EmailAddressData.DetermineConfirmationResult | core/src/main/java/org/everit/emailaddress/core/EmailAddressDataServiceImpl.java:144-154 | Success iff the engine says VERIFIED, Rejected iff it says REJECTED, Failed iff it says anything else |
| EmailAddressData.EmailAddressIdByVerifiableDataId | core/src/main/java/org/everit/emailaddress/core/EmailAddressDataServiceImpl.java:215-233 | the reverse lookup finds an id iff exactly one record refers to the subject, and then that record's id |
| EmailAddressData.EmailAddressById | core/src/main/java/org/everit/emailaddress/core/EmailAddressDataServiceImpl.java:163-206 | the address is found iff a record exists under the id (existEmailAddressData), and it is that record's address |
| EmailAddressData.VerifiableDataIdById | core/src/main/java/org/everit/emailaddress/core/EmailAddressDataServiceImpl.java:242-257 | a subject is found iff the record exists and has one, and the record is then among the subject's holders |
| EmailAddressData.VerificationEndById | core/src/main/java/org/everit/emailaddress/core/EmailAddressDataServiceImpl.java:267-282 | a verified-until date is found only through the record's subject, and it is the engine's date for that subject |
| EmailAddressData.MailFor | core/src/main/java/org/everit/emailaddress/core/EmailAddressDataServiceImpl.java:343-362 | one mail when the engine issued tokens, none otherwise; the mail goes to the record's address and carries the accept token, the reject token and the template |
| EmailAddressData.EmailAddressDataService.constructor | core/src/main/java/org/everit/emailaddress/core/EmailAddressDataServiceImpl.java:65-86 | the service starts with no records, no mails and no engine calls |
| EmailAddressData.EmailAddressDataService.SaveEmailAddress | core/src/main/java/org/everit/emailaddress/core/EmailAddressDataServiceImpl.java:313-328 | null raises IllegalArgument and an invalid address InvalidEmailAddress, both leaving the store unchanged; a valid address adds exactly one record under a fresh id > 0 with no reference; no other record, mail or engine call changes |
| EmailAddressData.EmailAddressDataService.CreateVerificationRequest | core/src/main/java/org/everit/emailaddress/core/EmailAddressDataServiceImpl.java:89-135 | errors in the order IllegalArgument (null template, end date or length base), NonPositiveVerificationLength, NoSuchEmailAddressData, each changing nothing, and success exactly when none of them applies; an existing subject is reused and the record is untouched; otherwise a subject is created and attached when the engine returns one; exactly one mail with the issued tokens goes to the record's address iff the engine issued tokens; a reference is never replaced |
| EmailAddressData.EmailAddressDataService.SendEmail | core/src/main/java/org/everit/emailaddress/core/EmailAddressDataServiceImpl.java:343-362 | appends the one mail to the receiver carrying the two tokens and the template |
| EmailAddressData.EmailAddressDataService.IsEmailAddressVerified | core/src/main/java/org/everit/emailaddress/core/EmailAddressDataServiceImpl.java:298-310 | NoSuchEmailAddressData iff there is no record, and a verdict iff there is one; the verdict is true iff the record's subject has a verified-until date strictly after now; nothing changes |
| EmailAddressData.EmailAddressDataService.InvalidateEmailAddress | core/src/main/java/org/everit/emailaddress/core/EmailAddressDataServiceImpl.java:285-295 | NoSuchEmailAddressData iff there is no record, and success iff there is one; on success the engine is told to invalidate the record's subject iff it has one, and then exactly that record is removed |
| EmailAddressData.EmailAddressDataService.VerifyEmailAddress | core/src/main/java/org/everit/emailaddress/core/EmailAddressDataServiceImpl.java:390-408 | IllegalArgument iff the token is null; (None, Failed) when the engine finds nothing or the subject is not held by exactly one record; otherwise that record's id with the mapped result; nothing changes |
| EmailAddressDataLifecycle.NonPositiveIdsAbsent | itests/core/src/main/java/org/everit/emailaddress/itests/core/EmailAddressDataServiceTestImpl.java:371-383 | ids 0 and below never name a record, so invalidate and the other operations on them raise NoSuchEmailAddressData |
| EmailAddressDataLifecycle.FreshRecordNotVerified | core/src/main/java/org/everit/emailaddress/core/EmailAddressDataServiceImpl.java:298-310 | a freshly saved record is not verified, whatever the engine's table and the time |
| EmailAddressDataLifecycle.SaveKeepsHolders | core/src/main/java/org/everit/emailaddress/core/EmailAddressDataServiceImpl.java:318-322 | saving a new record changes no reverse lookup from subject to record |
| EmailAddressDataLifecycle.AttachedSubjectMapsBack | core/src/main/java/org/everit/emailaddress/core/EmailAddressDataServiceImpl.java:119-126 | a newly created subject attached to a record that no other record refers to maps back to that record, so its tokens are reported against it |
| EmailAddressDataLifecycle.SharedSubjectMapsNowhere | core/src/main/java/org/everit/emailaddress/core/EmailAddressDataServiceImpl.java:229-232 | a subject held by two records maps back to no record |
| EmailAddressDataLifecycle.InvalidatedSubjectMapsNowhere | core/src/main/java/org/everit/emailaddress/core/EmailAddressDataServiceImpl.java:285-295 | once its only record is invalidated, a subject maps back to no record |
| EmailAddressDataLifecycle.InvalidateThenRetry | itests/core/src/main/java/org/everit/emailaddress/itests/core/EmailAddressDataServiceTestImpl.java:353-383 | on a stored record the first invalidate succeeds; afterwards isEmailAddressVerified and a second invalidate raise NoSuchEmailAddressData, as do invalidations of ids 0 and -1 |
| EmailAddressDataLifecycle.VerificationEndDecidesVerified | core/src/main/java/org/everit/emailaddress/core/EmailAddressDataServiceImpl.java:303-307 | the verified-until lookup and the strict comparison with now decide exactly VerifiedAt |
| EmailAddressDataLifecycle.IdsNeverReused | core/src/main/java/org/everit/emailaddress/core/EmailAddressDataServiceImpl.java:318-322 | the store never reuses an id: a record present before and after two operations was present in between, because each operation hands out ids only at or above the current counter |
| EmailAddressDataLifecycle.EvolvesTransitive | core/src/main/java/org/everit/emailaddress/core/EmailAddressDataServiceImpl.java:106-126 | a record keeps its address and its first subject across any run of operations, each of which keeps them and hands out fresh ids |

## Left out

- The JPA layer is not part of this model: criteria queries, `persist`,
  `merge`, `flush` and `getReference`. The store is a map keyed by id, and
  each "exactly one row" result check becomes a map lookup or a holder set of
  size one.
- The pessimistic write lock taken before invalidation is left out: it only
  serialises concurrent token use. InvalidateEmailAddress's body records
  the engine invalidation and then removes the record, but `engineCalls`
  and `records` are separate fields, so no contract can observe that
  order; the postcondition states both effects.
- Exceptions thrown by the verification engine, the mail service or the
  persistence layer are not modelled, and neither is a failed lock at line
  291 of `EmailAddressDataServiceImpl.java`. In the Java code such an
  exception propagates to the caller. In the model each operation returns
  normally once its own argument and lookup checks pass. So the success
  conditions of SaveEmailAddress, CreateVerificationRequest and
  InvalidateEmailAddress hold only while those collaborators do not fail.
- Template rendering and mail transport are left out (`VelocityUtil`,
  `EmailService.sendMessage`, the fixed sender address). A sent mail is an
  outbox entry holding the recipient, the two tokens and the unrendered
  template.
- The verification engine's internals are not modelled: token generation,
  expiry computation and token consumption. Its replies are parameters.
  `verifyData` calls are not recorded in `engineCalls`, so
  `VerifyEmailAddress` changes no state.
- `TokenUsageResult`: the engine's outcomes other than VERIFIED and REJECTED
  are collapsed into one value, `Other`. The service treats them all alike.
- `new Date()` is the parameter `now`.
- Java `long` ids, lengths and dates are unbounded integers. The id
  generator is a counter starting at 1, and its 64-bit overflow is not
  modelled.
- The order in which CreateVerificationRequest attaches the new subject and
  then sends the mail is not observable in a sequential model. Both effects
  are stated in the postcondition.
- CreateVerificationRequest, VerifyEmailAddress: the engine's
  `VerifiableDataCreation.verificationRequest` and
  `VerificationResult.tokenUsageResult` are never null in the model. The
  Java code dereferences them unchecked (lines 129-130 and 146 of
  `EmailAddressDataServiceImpl.java`) and would throw a
  NullPointerException on a null; that failure is not modelled.
- Java strings are UTF-16 code-unit sequences. The model's `string` is
  `seq<char>`, and the pattern's classes are ASCII ranges either way.
