# Selective disclosure, proved

A Dafny model of go-sd-jwt-vc: an issuer turns a tree of claims into a signed payload and a list
of salted disclosures, a holder passes on some of the disclosures and may bind them to its key,
and a verifier puts the disclosed claims back where they came from. The proofs say that this
comes out right: for every claim tree and every choice of selective fields, whatever the order
in which Go walks its maps, whatever the salts and decoys, and whatever part is revealed.

Check everything with `dafny verify dfyconfig.toml`.

## How it is organised

| files | what they hold |
|---|---|
| `Json`, `Text`, `Sublists`, `Wrappers` | JSON values and positions in them, splitting and joining, sub-lists |
| `Platform`, `Disclosure`, `Jwt`, `Token`, `Holder` | the wire formats, parsing, and the holder |
| `Claims`, `Issuer`, `Accounting` | the issuer: claims, runs, the imperative tree transformation, and what it leaves where |
| `Reconstruct`, `Heap`, `Verifier` | the verifier: the specification on values, the write-back through aliases on a heap, the chain of checks |
| `DisclosureStage`, `Collecting`, `Rebuilding` | the disclosure loop as a whole, the indexes that can be collected for it, and how its result depends on what is revealed |
| `Rfc`, `Repetition` | the algorithm of section 7.1 of RFC 9901, its agreement with the write-back, and what it rejects |
| `Soundness`, `Stages`, `Determinacy`, `KeyBinding` | verification of arbitrary input; its verdict stage by stage, read off the text; when its result depends on the order of map iteration; holder and verifier on key binding |
| `IssuedPayload`, `Meaning`, `Pipeline`, `EndToEnd`, `Withholding`, `Protocol` | issue, present, verify |
| `IssueOrder`, `OrderIndependence`, `OrderMatters` | the order in which claims are issued |
| `Witness` | the hypotheses on encoding, hash, randomness and signatures can be met |

**The form of the model.** What the Go code does step by step is done step by step here.
`BuildClaimsObject` and its helpers append to a shared `DisclosureLog` and draw from a shared
`Entropy` object, and loop over maps with `:|`, so nothing depends on an order. `Decode` allocates
one `Node` per JSON object, `CollectDigests` walks these nodes and returns a map from digests to
nodes, and `ApplyDisclosures` stores into the nodes through that map. Each of these methods is
proved equal to a function of its inputs; the other theorems are about those functions. What the
functions themselves compute is pinned down in terms of the text, the request and the payload
alone, with the constants of the source written out: see `IssuerStage`, `KbStage`, `LastStages`,
`RefusalMeaning`, `RegisteredMeaning`, `PresentationMeaning` and `ParseMeaning`.

**Runs.** The order in which one call of `buildClaimsObject` meets its members, and the salts it
draws, are recorded as a *run*, a sequence of visits. `BuiltObject` and `Entries` are functions of
a run, so that a statement about every run is one about every order and every salt. An *entry* is
a disclosure with the position of its member and the position of the nearest hidden object
around it. `Rebuild` is the payload with every accepted value stored at its position, and `Prune`
is the claim tree without the selective members that are not shown.

**Hypotheses.** Serialisation, hash, keys and signatures come in as a `Suite`. Where a result is
about tokens this library made, it takes `Lawful` (encoding can be undone and its text has no
tilde or dot), `SignsFor` (what the signer signs verifies), pairwise distinct digests, decoys that are no digest, and `TidyRequest`: claim names
are non-empty and not `_sd`, root names are not those the issuer sets, and plain values bring no
`_sd`. `IssuedIsSound` and `IdealIsSound` reduce the conditions on digests to fresh salts and a
collision-free hash; `IdealPlatformExists` shows that all of them can hold together. Soundness of
`Verify` takes none of them.

## Where the code and its documentation or tests part ways

The model follows the code in each case.

- The comment on `Verify` (verifier.go:110) says that each digest appears exactly once in an
  `_sd` array. The code does not check this (verifier.go:204-223). When several objects list the
  same digest, an object inside another wins over it; of two objects side by side the one that is
  visited last wins, and Go visits members in an arbitrary order. `Collected` spells out
  the maps the walk returns in some order. What follows from the order is this.
  - A bearer presentation has the same verdict, error, disclosed claims, type and subject in every
    order; only the reported claims can differ (`BearerVerdictIsDetermined`, and
    `DuplicateDigestIsUndetermined` for a payload where they do).
  - A key-bound presentation can be accepted in one order and rejected in another, because `cnf`
    is read after the write-back: `AcceptanceCanDependOnOrder` has the payload.
  - A presentation has one outcome in every order if each keyed disclosure is *settled*: of any two
    objects that list its digest, one contains the other (`SettledHasOneOutcome`). For one that
    some order accepts and that names no member already there, it has one outcome only then
    (`OutcomeDeterminedIffSettled`; `ClaimsDeterminedIffSettled` says the same of the claims).
    `ScatteringCanBeHidden` shows that the condition on names is needed.
- A test appends a tilde to text that ends in one (sdjwt_test.go:406). `ExtraTildeIsRejected`
  says that the parser refuses such text.
- An empty reveal list keeps everything (holder.go:95-99), which a test takes to mean nothing
  (sdjwt_test.go:510-518). Two filters that have no name in common thus keep only key-less
  disclosures, and that is no single filter: see `SelectionTwice`.
- The issuer hides structured claims inside structured claims, but the verifier does not search
  disclosed values for digests (verifier.go:227). Disclosures with something hidden around them
  are always rejected, and so are two of one name: see `ExactAcceptance`. A reveal list, or the
  empty one that keeps everything, is therefore accepted if and only if it is `Presentable`, which
  can be read off the request: see `IssuePresentVerify`.
- Reordering the members of a hidden claim that has two selective members changes the order of
  digests inside the hidden value, hence its disclosure: see `OrderCanShow`. The disclosures are
  independent of the order exactly when there is no such claim: see `OrderInvisibleIffRigid`.
- The code lets a disclosure replace a member that is already there (verifier.go:270), takes a
  disclosure without a claim name from `_sd`, and does not mind a digest that is listed twice.
  Section 7.1 of RFC 9901 rejects all three, and the name `...`: see `StandardIsStricter`.
- A disclosure with an empty claim name is one without a name to the code (verifier.go:257); the
  standard inserts the claim. Where the standard rejects nothing, this is the only difference
  between the two reconstructions: see `WriteBackMeetsTheStandard`.
- What was revealed in the place of another member cannot be undone by withholding it:
  see `DisclosureCanOverwrite` for an instance and `ShrinksCleanlyIffFresh` for the exact condition.
- `vct` and `cnf` are read after the write-back (verifier.go:285, 297), `iss` before
  (verifier.go:134). This is why withholding a disclosed `vct` can lose acceptance:
  `WithheldTypeIsMissed` is an instance, and `PresentationsAreMonotone` has the exact condition.

## Model

| member | source | states |
|---|---|---|
| Protocol.IssuePresentAndVerify | sdjwt_test.go:166-265 | issue, present, send and verify in a row: issuing and presenting fail in a signer only; the verifier rejects a disclosure if and only if the reveal list is not presentable, and otherwise reports the registered claims and the claim tree without the selective members that were not named |
| EndToEnd.IssuePresentVerify | verifier.go:121-312 | the same for any issuance, any order of map iteration and any digest index: a verifier who trusts the issuer accepts a presentation if and only if its reveal list names only members with nothing hidden around them, each name once; it then reports exactly the pruned claim tree, and discloses exactly the named claims without their own selective members |
| EndToEnd.CleanIsPresentable | holder.go:94-122 | a reveal list whose entries are visible and have distinct keys names, in the request, only members with nothing hidden around them, each name once |
| EndToEnd.RejectedWhenUnclean | verifier.go:249-265 | a trusted verifier rejects every other list of an issued token's disclosures with the mismatch or the duplicate error |
| EndToEnd.VerifiedMeaning | verifier.go:232-311 | whatever sub-list of an issued token's disclosures is presented and accepted, the reported claims are the registered ones and the tree pruned to what is visible or was presented |
| EndToEnd.AcceptedWhenClean | verifier.go:232-311 | a trusted verifier accepts every list of an issued token's disclosures with nothing hidden around any of them and no key twice |
| EndToEnd.PresentingIssued | holder.go:57-90 | presenting an issued token never fails on its disclosures, only for want of a signer, a nonce, an audience or a signature |
| EndToEnd.SelectionIsNamed | holder.go:94-122 | the holder's filter keeps exactly the texts of the entries that are named |
| EndToEnd.NamedPrune | holder.go:94-122 | showing the positions of the named entries and showing members by name prune the claim tree alike |
| EndToEnd.RegisteredStays | verifier.go:285-302 | a revealed claim of an issued token never stands in for a registered one |
| EndToEnd.TrustedPasses | verifier.go:127-174 | a token of a trusted issuer passes decoding, key resolution, signature, validity and `_sd_alg` within its validity period |
| Pipeline.ExactAcceptance | verifier.go:227-275 | of an issued token's disclosures the loop accepts a sub-list if and only if nothing around any of them is hidden and no two share a key |
| Pipeline.ExactRejection | verifier.go:249-265 | otherwise the first offender in list order decides: a hidden surrounding gives the mismatch error, a repeated key the duplicate error |
| Pipeline.IssuedIsSound | disclosure.go:45-51 | fresh salts and a hash without collisions make the issuer's digests distinct |
| Pipeline.IssuedIsWellFormed | issuer.go:242-245 | an issued token has non-empty parts without tildes |
| Pipeline.IssuedHolds | issuer.go:357-386 | whoever decodes an issued JWT finds its type, algorithm and key id, and each registered claim under its name |
| Protocol.IssueSoundly | issuer.go:161-246 | issuing a request with a type, a supported hash, existing selective fields and fewer than 17 levels fails only if the signer does, and what it issues meets the hypotheses of the pipeline theorems |
| Protocol.IdealIsSound | disclosure.go:146-152 | with salts and decoys drawn from a source that never repeats itself nor hits a digest, every issuance meets the hypotheses of the pipeline theorems |
| Withholding.WithheldValuesLeaveNoTrace | verifier.go:232-275 | two issuances that differ only inside withheld members yield the same verified claims and the same disclosed claims, up to `_sd`, and the withheld members are in neither |
| Withholding.WithheldIsAbsent | holder.go:107-121 | a selective member that is not named is not in the pruned tree |
| Issuers.BuildClaimsObject | issuer.go:254-352 | in whatever order members are met, the object, the digests, the disclosures appended and the salts drawn are those of a run that meets each member once; from the root it fails exactly when there are 17 levels of structured claims below it, hidden ones included |
| Issuers.AddMember | issuer.go:273-345 | one iteration of the loop extends the run by the member, keeping object, digests and log in step with it |
| Issuers.BuildMember | issuer.go:274-344 | a member becomes its value in the clear or one digest, and its disclosures follow those of its own members |
| Issuers.Hide | disclosure.go:45-51 | hiding a value draws one salt, appends one disclosure text and returns its digest |
| Issuers.TooDeepMeaning | issuer.go:261-263 | too deep means that some structured claim lies beyond the limit, hidden ones included |
| Issuers.TooDeepFromRoot | issuer.go:74-76 | from the root that is 17 structured claims inside one another |
| Issuers.RefusalMeaning | issuer.go:161-184 | a request is turned down for the first of: no type, an unsupported hash, a selective name that is no claim (the first such name), 17 levels of structured claims; and for nothing else |
| Issuers.FindMissing | issuer.go:172-176 | finds the first selective name that is no claim of the root, if there is one |
| Issuers.RegisteredMeaning | issuer.go:199-229 | the registered claims are exactly these, under these names, with times in whole seconds and the defaults for those not asked for |
| Issuers.AddDecoys | issuer.go:187-197 | exactly as many decoys as configured are drawn, and they follow the digests in the `_sd` of the root |
| Issuers.Register | issuer.go:199-229 | the registered claims are set one by one and win over claims of the same name |
| Issuers.Issue | issuer.go:161-246 | refuses for the first reason that applies, fails if the signer does not sign the payload of a run, or issues a token with that payload and the disclosures of that run, salted and padded from consecutive random values |
| Accounting.SelectiveHasEntry | issuer.go:287-341 | every selective member that exists, at any level, gets a disclosure |
| Accounting.EntryIsSelective | issuer.go:287-341 | and nothing else does |
| Accounting.PositionsDiffer | issuer.go:273-345 | no member gets two disclosures |
| Accounting.EntryIsHeld | issuer.go:298 | a digest is listed by the object its member was taken from, where the member's name does not occur |
| Accounting.HeldIsEntry | issuer.go:347-349 | every digest listed anywhere in a built object is that of a disclosure that belongs right there |
| Accounting.BuiltSd | issuer.go:347-349 | the `_sd` of an object lists exactly the digests of its own hidden members, each as often as members have it |
| Accounting.ListedOnce | issuer.go:347-349 | no object of what is built lists a digest twice |
| Accounting.DigestInPayload | issuer.go:287-304 | in the built payload a digest is listed once at its member's object if nothing around is hidden, and nowhere otherwise |
| Accounting.DigestInDisclosure | issuer.go:287-304 | in a disclosed value it is listed once, at its member's object, if the value is that of the nearest hidden member around it, and nowhere otherwise |
| Accounting.EnclosingEntry | issuer.go:287-298 | if something around a member is hidden, then a disclosure reveals the nearest hidden member around it |
| IssuedPayload.DigestSitsOnce | issuer.go:287-304 | each digest is listed once in exactly one object of the signed payload and all disclosed values: in the payload if nothing around its member is hidden, and in the value of the nearest hidden member otherwise |
| Accounting.FreshSaltsGiveDistinctDigests | disclosure.go:86-96 | fresh salts and a collision-free hash make all digests distinct |
| IssuedPayload.PayloadSd | issuer.go:187-197 | the `_sd` of the signed root lists the digests of hidden root members, the decoys, and nothing else |
| IssuedPayload.RootListings | issuer.go:187-197 | each of them as often as it occurs among the digests and the decoys |
| IssuedPayload.RootArray | issuer.go:187-235 | the `_sd` of the signed root is the digests of its hidden members followed by the decoys, and absent if there is neither |
| IssuedPayload.PayloadMember | issuer.go:210-229 | any other member of the signed root is a registered claim or an open member |
| IssuedPayload.DigestInSigned | issuer.go:179-235 | decoys and registered claims do not disturb where digests are listed, nor how often |
| IssuedPayload.IndexOfSigned | verifier.go:197-225 | whatever index the verifier collects from a signed payload, it has exactly the disclosures with nothing hidden around them, each at its own object |
| IssuedPayload.BuiltNotDeep | issuer.go:261-263 | a claim tree within the issuer's limit is within the verifier's, plain values allowing |
| IssuedPayload.DepthLimitsAgree | verifier.go:198-200 | for object-free plain values, no payload the issuer signs is too deep for the verifier, whatever the claims are called, unless the holder's key is, two levels down |
| IssueOrder.ReorderedIsRun | issuer.go:273 | any reordering of a run is a run of the same claims |
| IssueOrder.TextsAreBag | issuer.go:297 | the disclosures of a run, in no order, are the sum of what its members contribute |
| OrderIndependence.BagsAgree | issuer.go:273-345 | reordering does not change the disclosures unless a hidden claim has two selective members |
| OrderIndependence.PayloadsAlike | issuer.go:347-351 | nor does it change the payload, up to the order within `_sd` arrays |
| OrderIndependence.HiddenObjectsAgree | issuer.go:287-298 | a hidden object without two selective members is the same to the letter in any order |
| OrderIndependence.DigestsAgree | issuer.go:298 | an object lists the same digests in any order |
| OrderMatters.OrderCanShow | issuer.go:287-298 | two orders of one hidden claim with two selective members give different disclosures, salts being equal |
| OrderMatters.OrderInvisibleIffRigid | issuer.go:273-345 | for all claims: the disclosures are independent of the order if and only if no object inside a hidden claim has two selective members |
| OrderMatters.Twist | issuer.go:287-298 | every other claim tree has a reordering that shows in the object itself or in a hidden value |
| Heap.Decode | verifier.go:396-398 | decoding yields one new heap object per JSON object, related as the JSON is |
| Heap.CollectDigests | verifier.go:197-225 | fails exactly when an object lies too deep; otherwise the map is the one collected in some order of the members, and points at the objects themselves |
| Heap.CollectMember | verifier.go:213-223 | a nested object adds its digests, anything else adds none |
| Heap.Write | verifier.go:270 | storing through an alias changes the one object meant and no other |
| Heap.ApplyOne | verifier.go:237-274 | one disclosure is accepted or rejected like in the model on values, and its value lands in the object that lists its digest |
| Heap.ApplyDisclosures | verifier.go:234-275 | so is the list, and the heap then shows every accepted value at its place |
| Heap.ContentsAreRebuilt | verifier.go:268-270 | what can then be read from the root is the payload rebuilt by recursion |
| Reconstruct.DeepMeaning | verifier.go:198-200 | too deep means that some object lies that many members down |
| Reconstruct.DeepFromRoot | verifier.go:197-200 | from the root that is an object 17 members down |
| JsonModel.TruncateMeaning | verifier.go:155-161 | a date claim is cut to whole seconds towards zero |
| JsonModel.SdStringsMeaning | verifier.go:204-210 | the digests of an object are the strings of its `_sd` array |
| Collecting.CollectedIsIndex | verifier.go:204-223 | such a map has exactly the digests listed anywhere, each at an innermost object that lists it |
| Collecting.Steered | verifier.go:213-223 | whatever object lists a digest, some order makes the map point at it, or at one inside it |
| Collecting.FoundOnceIffNested | verifier.go:213-223 | where a digest is found is independent of the order if and only if the objects that list it lie inside one another |
| Collecting.IndexIsUniqueIffNested | verifier.go:213-223 | the whole map is independent of the order if and only if this holds of every digest |
| Collecting.VerdictIgnoresIndex | verifier.go:237-275 | the disclosure loop accepts, rejects with the same error, and reveals the same values for all maps with the same digests |
| Collecting.DeterminedIffSettled | verifier.go:232-275 | for all payloads: the loop writes the values of an accepted list into the same objects in every order if and only if no keyed disclosure has its digest in two objects of which neither contains the other; a rejected list has the same error in every order |
| Determinacy.OutcomeDeterminedIffSettled | verifier.go:121-312 | for presentations, key-bound or not, that some order accepts and that name no member already there: the outcome of the verification is the same in every order if and only if every keyed disclosure is settled |
| Determinacy.SettledHasOneOutcome | verifier.go:121-312 | whatever the outcome, a settled presentation has the same one in every order |
| Determinacy.ClaimsDeterminedIffSettled | verifier.go:268-270 | the same for the reconstructed claims of an accepted list |
| Determinacy.BearerVerdictIsDetermined | verifier.go:121-312 | without a KB-JWT, verdict, error, disclosed claims, issuer, type and subject are the same in every order |
| Determinacy.AcceptanceCanDependOnOrder | verifier.go:213-223 | one key-bound presentation that one order accepts and another rejects |
| Determinacy.ScatteringCanBeHidden | verifier.go:268-270 | an accepted list that is not settled, and whose claims are the same in every order because a name is taken |
| Collecting.DuplicateDigestIsUndetermined | verifier.go:204-223 | a payload that lists one digest in two objects, and two orders that put the accepted value into different ones |
| Reconstruct.FirstErrorStands | verifier.go:237-265 | the first error ends the loop |
| DisclosureStage.ProcessMeaning | verifier.go:237-275 | the loop accepts exactly the lists in which every text parses and is listed and no key repeats, and collects the value of each keyed one |
| DisclosureStage.FirstOffender | verifier.go:238-265 | a rejected list is in order up to an offender, which determines the error |
| DisclosureStage.ProcessPermuted | verifier.go:237-275 | permuting disclosures changes neither acceptance nor what is written |
| DisclosureStage.ProcessSublist | verifier.go:237-275 | dropping disclosures keeps acceptance and only drops writes |
| Rfc.WriteBackIsRfc | verifier.go:189-275 | the write-back through the index equals the recursive insertion of section 7.1 of RFC 9901, into objects and arrays, where digests are unique and neither disclosed values nor arrays list presented digests, if no disclosure has an empty name, and only then unless the standard rejects |
| Rfc.StepThreeIsStricter | verifier.go:257-270 | there, of the lists the loop accepts, step 3 rejects exactly those with a disclosure that has no name, the name `...`, or one that is taken |
| Rfc.NamesAgree | disclosure.go:124-142 | the code reads claim names as the standard does, except that an empty name is none |
| Rfc.SlotMeaning | verifier.go:189-275 | on the standard's side, an array element with the one member `...` is filled by a disclosure of two elements and rejects any other |
| Repetition.StandardIsStricter | verifier.go:189-275 | for all payloads: of the lists the code accepts, steps 3 to 5 of the standard reject exactly those with which some digest is listed twice, or a disclosure has no name, the name `...`, or one that is taken |
| Repetition.MetTwiceIffRepeated | verifier.go:204-223 | a digest is met twice by the standard, which looks through disclosures and counts `_sd` arrays and `...` elements, if and only if it is listed twice in the payload, in a disclosed value, or in two of these |
| Repetition.WriteBackMeetsTheStandard | verifier.go:189-275 | whenever the standard does not reject what the code accepts, both reconstruct the same claims if and only if no disclosure has an empty name |
| Rebuilding.RebuildLess | verifier.go:268-270 | revealing less is revealing more and erasing the difference, if nothing is overwritten |
| Rebuilding.ShrinksCleanlyIffFresh | verifier.go:268-270 | for all payloads: withholding any part removes exactly that part if and only if no revealed claim replaces a member already there |
| Rebuilding.DisclosureCanOverwrite | verifier.go:268-270 | an accepted disclosure that replaces a member, so that withholding it does not just remove it |
| Verifiers.Verify | verifier.go:121-312 | the chain of checks in order gives the first error or the result, with the claims as they are after the write-back, for some index that collecting the digests can produce |
| Verifiers.RevealInPlace | verifier.go:176-275 | decode, collect and write back on the heap is the recursive reconstruction |
| Verifiers.CheckAudience | verifier.go:342-362 | true if and only if `aud` is the expected text, or an array in which it stands somewhere |
| Verifiers.PeriodMeaning | verifier.go:155-164 | a token is expired or not yet valid if and only if the time is beyond the whole seconds of `exp` or before those of `nbf` by more than the tolerance |
| Verifiers.CnfMeaning | verifier.go:476-486 | the holder's key is the object `jwk` in the object `cnf`, and nothing else |
| Soundness.VerifyIsSound | verifier.go:121-312 | success on any input: the key of the issuer and key id verifies the decoded third part of the JWT over the first two, time inside the skewed window, every digest listed in the signed payload, keys distinct, reported claims the payload with each keyed disclosure stored in an innermost object that lists its digest, disclosed claims exactly those of the keyed disclosures, key-bound exactly if a KB-JWT is there, hence whenever required, and then by the key in the reported `cnf`, the nonce, the audience and the hash of the prefix |
| Soundness.HashMeaning | verifier.go:166-174 | the hash is the one that `_sd_alg` names, SHA-256 if it is absent, and none for any other name |
| Stages.FormatStage | verifier.go:122-125 | the format error is given exactly for text without a tilde, with one in front, or with two in a row |
| Stages.IssuerStage | verifier.go:127-174 | the checks of the issuer JWT in order, each with its error, in terms of the three parts of the text and what they decode to |
| Stages.ForgedIsRejected | verifier.go:146-149 | a signature that does not decode or that the issuer's key does not verify gives the signature error |
| Stages.DepthStage | verifier.go:198-200 | once the issuer JWT has passed, the depth error is given exactly for an object 17 members down |
| Stages.LoopErrorStands | verifier.go:237-275 | the error of the disclosure loop is that of the verification |
| Stages.KbStage | verifier.go:315-372 | the checks of the KB-JWT in order, each with its error, in the same terms |
| Stages.OtherAudienceIsRejected | verifier.go:341-362 | a KB-JWT that does not name the expected audience gives the audience error |
| Stages.LastStages | verifier.go:277-311 | key binding and type are checked in the rebuilt claims, each with its error, and the result has these fields |
| Soundness.OrderDoesNotMatter | verifier.go:227-311 | permuting the disclosures of an accepted bearer presentation leaves an accepted one with the same disclosed claims, type and subject, whatever the indexes; the result is the same where nothing revealed can end up in different objects |
| Soundness.PresentationsAreMonotone | verifier.go:237-311 | dropping disclosures leaves an accepted presentation if and only if the type then shown is still the expected one, whatever the indexes; its disclosed claims are among the former; and the claims are pruned by what was dropped where nothing revealed can end up in different objects and nothing was overwritten |
| Soundness.AcceptedElsewhere | verifier.go:227-275 | a list accepted with one index of a payload is accepted with every other, and reveals the same values |
| Soundness.WithheldTypeIsMissed | verifier.go:296-300 | an accepted presentation that is rejected once its disclosed `vct` is withheld |
| KeyBinding.HolderAndVerifierAgree | holder.go:127-168 | a key-bound presentation arrives unchanged and passes the check under the signer's key exactly when each expected nonce and audience matches |
| KeyBinding.TamperingIsRejected | verifier.go:364-369 | its KB-JWT on any other issuer JWT, disclosures or order of them is rejected, at the hash if not earlier |
| KeyBinding.TamperedTokenIsRejected | verifier.go:284-294 | no verification as a whole accepts such a token |
| KeyBinding.KbDecodes | holder.go:133-167 | the KB-JWT decodes to what was signed and verifies under the signer's key |
| KeyBinding.KbHolds | holder.go:133-167 | whoever decodes a KB-JWT finds its type, algorithm and key id, and exactly time, nonce, audience and hash of the prefix |
| KeyBinding.SelectionWellFormed | holder.go:64-89 | a presentation of a well-formed token is well-formed |
| Holders.SelectDisclosures | holder.go:94-122 | all disclosures for an empty list; otherwise each key-less or named one as often as it occurs, in order, and no other |
| Holders.SelectionMeaning | holder.go:94-122 | it fails only for a non-empty list and a text that does not parse |
| Holders.PresentationMeaning | holder.go:57-168 | the errors of presenting in order, each exactly when its condition holds, and the KB-JWT part by part |
| Holders.KeptMeaning | holder.go:107-121 | filtering fails exactly when a text does not parse; it keeps every occurrence of every key-less or named disclosure, in order, and no other |
| Holders.KeptTwice | holder.go:107-121 | filtering twice is filtering by the common names |
| Holders.SelectionTwice | holder.go:94-122 | so are two non-empty reveal lists with a name in common; without one they keep only key-less disclosures |
| Holders.Present | holder.go:57-90 | filter first, then bind what is left, with each error in turn; the issuer JWT stays, disclosures are only lost, and the KB-JWT does not change the hashed prefix |
| Holders.PresentationKeeps | holder.go:83-89 | the issuer JWT stays, disclosures are a sub-list, and attaching the KB-JWT leaves the hashed prefix unchanged |
| Holders.ChainNeverWidens | holder.go:57-90 | no chain of presentations widens the set or changes the issuer JWT |
| Tokens.Parse | token.go:67-101 | accepts or refuses like the specification by splitting |
| Tokens.ParseAcceptsExactly | token.go:67-101 | accepted are exactly the texts with a tilde, none in front and no two in a row |
| Tokens.StringOfParse | token.go:37-43 | serialising what was parsed gives the text back |
| Tokens.ParseOfString | token.go:37-43 | parsing what was serialised gives the token back |
| Tokens.ExtraTildeIsRejected | token.go:92-96 | a tilde appended to a serialised token without KB-JWT makes it unacceptable |
| Tokens.PrefixLaw | token.go:48-54 | the prefix is the text up to and including the last tilde, and the KB-JWT the rest |
| Tokens.StringIsPrefixPlusKb | token.go:37-54 | text is prefix and KB-JWT, for every token |
| Tokens.PrefixIsInjective | token.go:48-54 | the prefix determines the issuer JWT and the disclosures in order |
| Text.SplitOfJoin | token.go:72 | splitting undoes joining of parts without separator |
| Text.JoinOfSplit | token.go:42 | joining undoes splitting |
| Text.SplitShape | token.go:72-96 | number and emptiness of the parts, read off the characters |
| Disclosures.ParseOfEncode | disclosure.go:68-81 | parsing returns the salt, key and value that were encoded, keyed or not |
| Disclosures.ParseMeaning | disclosure.go:101-143 | which element of the decoded array is salt, key and value, for arrays of three and of other lengths |
| Disclosures.EncodedArray | disclosure.go:68-81 | the array a disclosure is written as |
| Disclosures.ParseIsStable | disclosure.go:101-143 | parse, encode, parse is parse, for empty keys, null salts and long arrays too |
| Disclosures.ParseAccepts | disclosure.go:101-143 | exactly which JSON values are disclosures |
| Disclosures.EncodeIsInjective | disclosure.go:68-81 | distinct disclosures have distinct texts |
| Jwt.SignedDecodes | issuer.go:357-386 | a signed object decodes to what was signed, verifies under the signer's key and can stand between tildes |
| Jwt.SignedMeaning | issuer.go:357-386 | signing fails exactly when the signer does on header and payload; otherwise the token is these and the encoded signature |
| Jwt.DecodeMeaning | verifier.go:378-400 | a JWT decodes exactly if it has three parts, cut at the first two dots, of which two hold objects or `null` |
| Jwt.SignatureMeaning | verifier.go:405-430 | a signature is valid exactly if the third part decodes and the key verifies it over the other two |
| Platform.SdAlgTablesAgree | internal/hashutil/hashutil.go:30-55 | the two algorithm tables are inverse to each other |
| Platform.SdAlgNames | internal/hashutil/hashutil.go:30-55 | the three names, in both directions, and no others |
| Meaning.HiddenValue | issuer.go:287-341 | a disclosed value, without `_sd`, is its claim without selective members |
| Meaning.RebuiltMeaning | verifier.go:268-270 | rebuilding what the issuer built from visible entries and stripping `_sd` gives the pruned claims, at any level |
| Meaning.PayloadMeaning | issuer.go:179-235 | for the signed payload it gives the registered claims and the pruned claims |

## Left out

- ECDSA and RSA arithmetic, signature bytes and JWK decoding (verifier.go:402-473, 488-551): signing and checking are functions of the `Suite`.
- `buildCnf` (issuer.go:391-405): the holder key is given as the JWK it is marshalled to, and marshalling does not fail.
- JSON text, base64 and SHA-2: an encoding that can be undone and a digest function. Numbers are exact decimals; float64 rounding, the range of int64 and overflow of times are not modelled.
- Randomness: the n-th value drawn is the n-th of a stream; drawing does not fail, and salts are not told apart from decoys by their length.
- Claims that Go cannot marshal, and the error that gives.
- Array-element disclosures: neither the issuer nor the verifier embeds them; the key-less form is modelled where disclosures are parsed, filtered and accepted, and in the algorithm of the standard, which does embed them.
- Rfc.Reveal: leaves out the steps of the standard that remove `_sd`, `_sd_alg` and unmatched array elements.
- Structured claims inside arrays or plain objects, which Go would marshal as they are.
- Root claims named `_sd` that hold a list of Go strings. Such a claim is the only reason why the issuer would have to remove an empty `_sd` (issuer.go:231-235).
- Objects inside arrays and inside disclosed values are values, not heap objects: the code never writes into them.
- The reported claims are the contents of the root object, not an alias of it.
- Contexts, error texts and wrapping, option constructors, and the clock, which is a parameter.
- adapters/jwx and the example program.
- Soundness.PresentationsAreMonotone: acceptance is kept only if the type shown still matches, and pruning is stated only where no revealed claim replaces an existing member and none can end up in different objects. `ShrinksCleanlyIffFresh` is the exact condition of the first kind for one index.
- Determinacy.OutcomeDeterminedIffSettled: where a disclosure has the name of a member already there, being settled is sufficient for one outcome but not necessary.
- OrderIndependence.BagsAgree: only for claim trees in which no hidden claim has two selective members, which is exactly when it holds.
