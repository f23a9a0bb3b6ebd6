# cause-drop, modelled in Dafny

Cause Drop is a crowdfunding site on Solana. A wallet owner signs in by signing
a message, creates a campaign with a title, goal, recipient and image, and shares
it as a Solana "blink" action with donation buttons. This project models the
deterministic core of the Express server and the pure helpers of the Next.js client.
Everything is written as pure functions over immutable data:

- **Slug normalisation** (`generateSlug`).
- **Request schemas** (zod): sign-in and campaign creation.
- **Server handlers** `signin`, `verify`, `authenticateToken`, `createCampaign` and
  `getCampaignAction`. Each is a function `(request, store) -> (reply, store')`.
  - The store is a sequence of user rows and a sequence of campaign rows.
  - JWT signing, Ed25519 and Solana key parsing are function-valued parameters
    (`Jwt.Codec`, `Crypto.Crypto`).
- **Client helpers**:
  - the campaign form's schema, progress meter, submit gate, size guard and
    upload progress;
  - description truncation and share URLs;
  - the react-query key hierarchy and error messages;
  - the two sign-in flows (the sign-in button and the header's `verifyWallet`).

Supporting modules:

- `Base64`: Node's lenient decoder and the canonical encoder of section 4 of RFC 4648.
- `Base58`: the Bitcoin alphabet, as used by `bs58`.
- `Utf8`: `TextEncoder` and `toString("utf-8")`.
- `Chars`: the JavaScript `\s` set, ASCII `toLowerCase`, trimming.
- `Json` and `Http`: request and reply bodies.
- `Store`: Prisma's user and campaign tables, as sequences whose ids are row positions.

The one assumption about the token codec is the predicate `Jwt.Sound`: a token
verifies, under the secret it was signed with, to the claims it was signed with.
It appears only as a precondition of the lemmas that need it. There is no axiom.
An honest wallet is `Wallet.Honest`. It is likewise only a precondition.

## Model

| member | source | states |
|---|---|---|
| Slug.StripDisallowed | apps/server/src/utils/generateSlug.ts:4 | the result has only characters of `[a-z0-9\s-]`, is no longer than the input, and equals the input iff every input character is kept |
| Slug.StripDisallowedCounts | apps/server/src/utils/generateSlug.ts:4 | each character of `[a-z0-9\s-]` survives as often as it occurs in the input, and every other character is dropped |
| Slug.StripDisallowedAppend | apps/server/src/utils/generateSlug.ts:4 | the global replace works character by character: stripping a concatenation strips each part, so kept characters stay in order |
| Slug.StripDisallowedChar | apps/server/src/utils/generateSlug.ts:4 | a single character is kept iff it is in `[a-z0-9\s-]`; with the append lemma this fixes the result for every input |
| Slug.DashSpaces | apps/server/src/utils/generateSlug.ts:5 | no whitespace survives; slug characters in give slug characters out; text without whitespace is unchanged |
| Slug.DashSpacesAppend | apps/server/src/utils/generateSlug.ts:5 | the replace scans left to right and carries only whether it is inside a whitespace run, so it splits over any concatenation |
| Slug.DashSpacesChar | apps/server/src/utils/generateSlug.ts:5 | a whitespace character opens a run with one `-` or continues it with nothing; any other character is copied |
| Slug.SpaceRunBecomesDash | apps/server/src/utils/generateSlug.ts:5 | a run of whitespace becomes exactly one `-` |
| Slug.SeparatorBecomesDashes | apps/server/src/utils/generateSlug.ts:5 | a mix of whitespace and `-` becomes a run of `-` only, non-empty when the mix is |
| Slug.CollapseDashes | apps/server/src/utils/generateSlug.ts:6 | the result never holds `--`, keeps the slug character set, and is the identity on text without `--` |
| Slug.CollapseDashesAppend | apps/server/src/utils/generateSlug.ts:6 | the replace scans left to right and carries only whether the last character emitted was `-`, so it splits over any concatenation |
| Slug.CollapseDashesChar | apps/server/src/utils/generateSlug.ts:6 | a `-` opens a run or continues it with nothing; any other character is copied |
| Slug.DashRunBecomesDash | apps/server/src/utils/generateSlug.ts:6 | a run of `-` becomes exactly one `-` |
| Slug.BaseSlug | apps/server/src/utils/generateSlug.ts:2-7 | the base slug has only `a-z`, `0-9` and `-`, has no `--`, and is never longer than the title |
| Slug.TrimIsNoOp | apps/server/src/utils/generateSlug.ts:4-7 | the final `.trim()` changes nothing, because no whitespace is left |
| Slug.BaseSlugIdempotent | apps/server/src/utils/generateSlug.ts:2-7 | normalising a base slug again returns it unchanged |
| Slug.BaseSlugKeepsAlnums | apps/server/src/utils/generateSlug.ts:2-7 | the base slug holds exactly the ASCII letters and digits of the lower-cased title, in the title's order |
| Slug.BaseSlugJoinsWords | apps/server/src/utils/generateSlug.ts:2-7 | two words of `a-z0-9` separated by any non-empty mix of whitespace and `-` come out joined by a single `-` |
| Slug.FixedPointIffShape | apps/server/src/utils/generateSlug.ts:2-7 | a string is its own base slug iff it has the slug character set and no `--` |
| Slug.RandomSuffix | apps/server/src/utils/generateSlug.ts:9 | the suffix is at most 6 characters, taken from position 2 of the base-36 rendering, and exactly 6 when the rendering is long enough |
| Slug.RandomSuffixDigits | apps/server/src/utils/generateSlug.ts:9 | a suffix cut from a base-36 rendering has only base-36 digits |
| Slug.GenerateSlug | apps/server/src/utils/generateSlug.ts:1-11 | the slug splits into the base slug (slug-shaped, no `--`), one `-`, and the suffix |
| Slug.TrailingSpaceGivesDoubleDash | apps/server/src/utils/generateSlug.ts:5-10 | "hello " gives "hello--" before the suffix: the no-double-dash property holds only for the base |
| Slug.PunctuationOnlyTitle | apps/server/src/utils/generateSlug.ts:4-10 | an all-punctuation title gives `-` followed by the suffix |
| Base64.DecodeEncode | apps/server/src/controllers/auth/validation/index.ts:23 | decoding the canonical encoding of any bytes gives the bytes back |
| Base64.EncodedIsCanonical | apps/server/src/controllers/auth/validation/index.ts:23 | the padded encoding of any bytes passes the signature check |
| Base64.CanonicalIffEncoding | apps/server/src/controllers/auth/validation/index.ts:19-30 | a string passes the check iff it is the encoding of some bytes |
| Base64.CanonicalShape | apps/server/src/controllers/auth/validation/index.ts:23 | a string that passes has a length divisible by 4 and only alphabet characters and `=` |
| Base64.UnpaddedDecodesToGroups | apps/server/src/utils/verifySignature.ts:12 | a passing string without `=` decodes to a multiple of three bytes |
| Base64.ForeignCharRejected | apps/server/src/controllers/auth/validation/index.ts:23 | any character outside the standard alphabet and `=` fails the check, although the decoder skips it |
| Base64.UnpaddedRejected | apps/server/src/controllers/auth/validation/index.ts:23 | "QQ" (missing padding) fails |
| Base64.TrailingBitsRejected | apps/server/src/controllers/auth/validation/index.ts:23 | "QR==" (non-zero trailing bits) fails while "QQ==" passes |
| Base64.UrlSafeAndWhitespaceRejected | apps/server/src/controllers/auth/validation/index.ts:23 | URL-safe `-` and `_` and embedded whitespace fail |
| Base58.Encode | apps/web/src/components/signin-button.tsx:33 | every encoding is accepted by the base58 decode check |
| Base58.EncodeLeadingZeros | apps/web/src/components/signin-button.tsx:33 | leading zero bytes become leading `1` characters, one for one |
| Base58.DigitOf | apps/web/src/components/signin-button.tsx:33 | each alphabet character stands for the digit whose character it is, below 58 |
| Base58.DigitsValueOfDigits | apps/web/src/components/signin-button.tsx:33 | reading back the base-58 digits of a number gives that number |
| Base58.EncodeSplits | apps/web/src/components/signin-button.tsx:33 | the encoding is one `1` per leading zero byte followed by the base-58 digits of the bytes' value |
| Base58.EncodeValue | apps/web/src/components/signin-button.tsx:33 | after the leading `1`s, the encoding denotes exactly the bytes' big-endian value |
| Base58.EncodeZerosThen58 | apps/web/src/components/signin-button.tsx:33 | k zero bytes followed by 58 encode as k `1`s followed by "21" |
| Utf8.DecodeEncode | apps/web/src/components/navbar.tsx:32-45 | decoding the UTF-8 encoding of any string gives the string back |
| SigninSchema.Parse | apps/server/src/controllers/auth/validation/index.ts:4-33 | a body is accepted iff it is exactly the three string fields, the key is base58 and the signature canonical base64; the accepted request is read back from the body |
| SigninSchema.ParseToJson | apps/server/src/controllers/auth/validation/index.ts:4-33 | the body built from a request parses back to it iff the request is acceptable; `message` passes unchanged |
| SigninSchema.ExtraKeyRejected | apps/server/src/controllers/auth/validation/index.ts:33 | any extra key causes rejection |
| SigninSchema.MissingKeyRejected | apps/server/src/controllers/auth/validation/index.ts:5-32 | a body missing any of the three keys is rejected |
| SigninSchema.EncodedSignatureAccepted | apps/server/src/controllers/auth/validation/index.ts:19-30 | a base58 key with a padded base64 signature of any bytes is accepted for any message |
| CampaignSchema.Parse | apps/server/src/controllers/app/validation/index.ts:12-35 | a body is accepted iff it holds exactly the five fields and each passes its check; the output trims title and description and keeps the rest |
| CampaignSchema.ParseToJson | apps/server/src/controllers/app/validation/index.ts:12-35 | the body built from an input whose title and description are already trimmed parses back to it iff the input is acceptable |
| CampaignSchema.BlankTitleAccepted | apps/server/src/controllers/app/validation/index.ts:14 | the length check runs before `.trim()`, so the title "   " passes and comes back as "", which the same schema would reject if sent again |
| CampaignSchema.GoalIffMinimum | apps/server/src/controllers/app/validation/index.ts:30-33 | a goal passes iff it is at least 0.001; `.positive()` adds nothing |
| CampaignSchema.UpperCaseExtensionAccepted | apps/server/src/controllers/app/validation/index.ts:4-10 | the extension test ignores case: any string ending in `.JPG` has an accepted extension |
| CampaignSchema.NonLetterEndRejected | apps/server/src/controllers/app/validation/index.ts:7-10 | a URL whose last character is not a letter, such as a trailing `/`, fails |
| CampaignSchema.WrongKeysRejected | apps/server/src/controllers/app/validation/index.ts:12-35 | a body whose key set differs from the five keys is rejected, so all five, `imageUrl` included, are required |
| Crypto.VerifySignature | apps/server/src/utils/verifySignature.ts:4-25 | true iff the key parses to 32 bytes, the base64 signature decodes to 64 bytes, and Ed25519 accepts the UTF-8 message bytes |
| Crypto.EncodedSignatureVerified | apps/server/src/utils/verifySignature.ts:12-20 | a 64-byte signature sent as padded base64 is verified on exactly those bytes |
| Crypto.UnpaddedSignatureNeverVerifies | apps/server/src/utils/verifySignature.ts:12-20 | a canonical signature text without `=` never verifies |
| Store.FindUserByAddress | apps/server/src/controllers/auth/index.ts:30-34 | returns the earliest row with the address, and none exactly when no row has it |
| Store.LookupOrCreateUser | apps/server/src/controllers/auth/index.ts:30-41 | a known address returns its row and leaves the store unchanged; a new one appends exactly one row with the next id; validity is kept |
| Store.LookupOrCreateIdempotent | apps/server/src/controllers/auth/index.ts:30-41 | a second lookup-or-create for the same address returns the same row and changes nothing |
| Store.InsertCampaign | apps/server/src/controllers/app/index.ts:38-48 | fails iff the slug is taken, the slug column being assumed unique; otherwise appends one row with the given fields and the assumed schema defaults `totalRaised` 0 and `active` true, keeping the store valid |
| Jwt.IssueToken | apps/server/src/controllers/auth/index.ts:42-48 | under a sound codec the token is non-empty and verifies to the claims `{userId, publicKey}` |
| Auth.Signin | apps/server/src/controllers/auth/index.ts:9-68 | status 400 iff the schema fails, 401 iff it passes but the signature fails, 500 iff both pass but the database is unreachable, else 200; each failure body is fixed and leaves the store unchanged; 200 carries a token for the stored user with that address |
| Auth.SchemaFailureIndependent | apps/server/src/controllers/auth/index.ts:10-18 | a schema failure gives the same 400 whatever the crypto and the store: the signature is not checked |
| Auth.NewAddressCreatesOneUser | apps/server/src/controllers/auth/index.ts:30-41 | a successful sign-in with a new address adds exactly one user |
| Auth.KnownAddressCreatesNone | apps/server/src/controllers/auth/index.ts:30-41 | a successful sign-in with a known address adds none |
| Auth.RepeatedSigninSameUser | apps/server/src/controllers/auth/index.ts:30-59 | two successful sign-ins with the same address return the same user id |
| Auth.SigninData | apps/server/src/controllers/auth/index.ts:50-59 | the 200 data holds the token, `user.id` and `user.createdAt` |
| Auth.Verify | apps/server/src/controllers/auth/index.ts:70-122 | 403 iff the header is missing; 401 iff the token fails; 500 iff the verified payload has no `userId` or the database is unreachable; 404 iff the claimed user is absent from a reachable database; 200 iff the claimed user is stored and the database is reachable, with `valid` true and that user's id; each failure carries its own error text |
| Auth.SigninThenVerify | apps/server/src/controllers/auth/index.ts:42-106 | under a sound codec, the token of a successful sign-in passes `verify` with 200 and the same user id |
| Auth.VerifyMissingHeaderIgnoresStore | apps/server/src/controllers/auth/index.ts:71-78 | without a header the reply is the same whatever the store |
| Middleware.AuthenticateToken | apps/server/src/middlewares/index.ts:5-51 | `next` is reached iff the header is present, the token verifies, the database is reachable and the claimed user exists, and then with that stored user; missing header gives 401 "Access token required", a failing token 401 "Invalid token"; 404 "User not found" iff the claimed user is absent from a reachable database; 500 "Internal server error" iff the payload has no `userId` or the database is unreachable |
| Middleware.AgreesWithVerify | apps/server/src/middlewares/index.ts:16-50 | with a header present the middleware continues exactly when `verify` answers 200, and otherwise sends `verify`'s reply |
| Middleware.MissingTokenStatusesDiffer | apps/server/src/middlewares/index.ts:9-14 | without a header the middleware answers 401 while `verify` answers 403 |
| Middleware.SigninTokenPasses | apps/server/src/middlewares/index.ts:16-36 | under a sound codec the token of a successful sign-in lets a request through as that user |
| CampaignController.CreateValidated | apps/server/src/controllers/app/index.ts:26-74 | 400 "Invalid recipient address" iff the recipient does not parse; 500 iff the database is down or the slug is taken; otherwise 201 with one new row owned by the user and titled, described and priced from the input |
| CampaignController.CampaignJsonFields | apps/server/src/controllers/app/index.ts:50-63 | the 201 body echoes every stored column except the owner |
| CampaignController.CreateCampaign | apps/server/src/controllers/app/index.ts:7-74 | 400 on schema failure before the user is looked at; 401 iff the body is valid and there is no user; otherwise the slug is generated from the trimmed title; only a 201 changes the store, by one row |
| CampaignController.PostCampaign | apps/server/src/routers/app/index.ts:12 | behind the middleware, a missing header gives 401 "Access token required", the handler's own 401 is unreachable, and a 201 adds one row owned by the token's user |
| CampaignController.AuthenticationBeforeValidation | apps/server/src/routers/app/index.ts:12 | an anonymous request with a malformed body gets 401, not 400 |
| Actions.BuildPayload | apps/server/src/controllers/actions/index.ts:23-87 | an invalid slug throws "Invalid campaign slug", an unknown one "Campaign doesn't exist"; otherwise the payload copies title and description, uses the image or "" as icon, and holds the four actions |
| Actions.GetCampaignAction | apps/server/src/controllers/actions/index.ts:22-97 | 200 with the payload iff building it succeeds, else 400 with the error message |
| Actions.ErrorMessages | apps/server/src/controllers/actions/index.ts:92-94 | the message is one of the three texts, and each thrown string is passed on verbatim |
| Actions.ActionsShape | apps/server/src/controllers/actions/index.ts:57-85 | exactly four actions; the first three carry 0.1, 0.25 and 0.5 without parameters; the fourth uses `{amount}` with one required parameter `amount`; every href is the base followed by `&amount=` |
| Actions.HrefsNameRecipient | apps/server/src/controllers/actions/index.ts:47-48 | every href starts with the donation endpoint followed by the stored recipient |
| Actions.LabelsDisagreeWithAmounts | apps/server/src/controllers/actions/index.ts:58-72 | no fixed button's label names the amount its href sends |
| Actions.CorrectedLabelsMatchAmounts | apps/server/src/controllers/actions/index.ts:58-72 | with labels built from the amounts, each fixed label names its amount and nothing else changes |
| CampaignForm.TitleBounds | apps/web/src/components/campaign-form.tsx:25-29 | a title is accepted iff its length is 5 to 100; `min(1)` is subsumed and the maximum is inclusive |
| CampaignForm.DescriptionBounds | apps/web/src/components/campaign-form.tsx:30-34 | a description is accepted iff its length is 20 to 1000; `min(1)` is subsumed and the maximum is inclusive |
| CampaignForm.CalculateProgress | apps/web/src/components/campaign-form.tsx:84-98 | progress is 25 times the number of filled fields plus the image, always one of 0, 25, 50, 75, 100, and 100 iff title, description and goal are filled and an image is chosen |
| CampaignForm.SubmitEnabledIff | apps/web/src/components/campaign-form.tsx:298 | submit is enabled iff nothing is loading and progress is 100; the image test is implied |
| CampaignForm.HandleImageUpload | apps/web/src/components/campaign-form.tsx:100-116 | a file over the size limit raises the alert and leaves the chosen image unchanged; otherwise it becomes the chosen image |
| CampaignForm.UploadImageToS3 | apps/web/src/components/campaign-form.tsx:118-144 | upload progress takes only 0, 25, 75 and 100, rises while the upload runs, and is 0 again at the end; success iff both steps succeed, with the CDN URL of the file; 100 is never shown on failure |
| CampaignForm.CreateRequest | apps/web/src/components/campaign-form.tsx:146-161 | the request has exactly the server schema's five keys: the form's title, description and goal, the uploaded image URL or else the typed one, and the wallet key in base58 |
| CampaignForm.ClientBoundsImplyServerBounds | apps/web/src/components/campaign-form.tsx:25-38 | a client-valid title and goal meet the server's minimum title length and minimum goal |
| CampaignForm.ClientRequestAccepted | apps/web/src/components/campaign-form.tsx:146-161 | a client-valid form with an image URL the server accepts passes the server schema with the goal, URL and wallet recipient kept and the title and description trimmed |
| CampaignList.TruncateDescription | apps/web/src/app/campaign/page.tsx:31-34 | text that fits is returned unchanged; longer text becomes its first `maxLength` characters and `...`; the result is at most `maxLength + 3` long and starts with the text's first min(length, maxLength) characters |
| CampaignList.TruncateIdempotent | apps/web/src/app/campaign/page.tsx:31-34 | truncating an already-truncated text changes nothing |
| CampaignList.ShareUrl | apps/web/src/app/campaign/page.tsx:52-55 | the URL is the origin, `/campaign/`, then the slug |
| CampaignList.ShareUrlInjective | apps/web/src/app/campaign/page.tsx:53 | on one origin, two slugs share the same URL iff they are equal |
| CampaignQueries.StartsWithCampaigns | apps/web/src/hooks/useCampaignQueries.ts:21-29 | every key begins with `["campaigns"]` |
| CampaignQueries.ListsProperPrefix | apps/web/src/hooks/useCampaignQueries.ts:23-24 | `lists()` is a proper prefix of every `list(filters)` |
| CampaignQueries.DetailShape | apps/web/src/hooks/useCampaignQueries.ts:25-26 | `detail(slug)` is `["campaigns", "detail", slug]` |
| CampaignQueries.KeysInjective | apps/web/src/hooks/useCampaignQueries.ts:21-29 | two builder calls give the same key iff they are the same builder with the same argument, so list, detail and signed-URL keys never coincide and distinct slugs give distinct keys; this is equality of the key arrays, and react-query's own identity of queries is `HashesInjective` |
| CampaignQueries.UndefinedFilterHashesAsNull | apps/web/src/hooks/useCampaignQueries.ts:24 | `list()` and `list(null)` are different keys whose JSON hashes coincide, so react-query treats them as one query |
| CampaignQueries.HashesInjective | apps/web/src/hooks/useCampaignQueries.ts:21-29 | for omitted or string filters, two builder calls hash alike iff they are the same call, so each names its own query |
| CampaignQueries.DetailEnabled | apps/web/src/hooks/useCampaignQueries.ts:90 | the detail query is enabled iff the slug is truthy in JavaScript's sense, that is non-empty |
| CampaignQueries.InvalidationCoversLists | apps/web/src/hooks/useCampaignQueries.ts:110 | invalidating `lists()` after a create matches exactly `lists()` and every `list(filters)` |
| CampaignQueries.ErrorMessage | apps/web/src/hooks/useCampaignQueries.ts:54 | the message is the response's `message` whenever that is truthy, and the per-operation default otherwise (always so when there is no response body) |
| CampaignQueries.ServerMessageShown | apps/web/src/hooks/useCampaignQueries.ts:85 | a non-empty `message` string in the body is shown |
| CampaignQueries.ServerFailureFallsBack | apps/web/src/hooks/useCampaignQueries.ts:115 | for every failure body the server sends, the default is shown instead of the server's text |
| CampaignQueries.ErrorMessageCorrected | apps/web/src/hooks/useCampaignQueries.ts:54 | the corrected reading shows the body's `error` whenever that is truthy, and the default otherwise |
| CampaignQueries.CorrectedShowsServerError | apps/web/src/hooks/useCampaignQueries.ts:115 | with the corrected reading, the server's non-empty error text is shown |
| SigninButton.GenerateSignInMessage | apps/web/src/components/signin-button.tsx:10-13 | the message starts with the fixed preamble and `\n\nWallet: `, and its length is that of its five parts |
| SigninButton.MessageInjective | apps/web/src/components/signin-button.tsx:12 | for newline-free keys, two messages are equal iff their keys and timestamps are |
| SigninButton.HandleSignIn | apps/web/src/components/signin-button.tsx:20-35 | the modal opens iff there is no key or no signer, and then nothing is signed; otherwise the UTF-8 bytes of the message are signed and the body carries the key, the base58 signature and exactly that message |
| SigninButton.ButtonSigninNeverSucceeds | apps/web/src/components/signin-button.tsx:33 | whatever the wallet signs, the server answers the button's request with 400 or 401 and the store is untouched |
| SigninButton.ExampleSignatureRejected | apps/web/src/components/signin-button.tsx:33 | 63 zero bytes and 58 are sent as 63 `1`s and "21", which fails the canonical-base64 check |
| SigninButton.HandleSignInCorrected | apps/web/src/components/signin-button.tsx:20-35 | the corrected button sends a padded base64 signature, which always passes the schema |
| SigninButton.CorrectedButtonSignsIn | apps/web/src/components/signin-button.tsx:26-35 | with an honest wallet and a reachable database, the corrected request signs in with 200 |
| Navbar.Statement | apps/web/src/components/navbar.tsx:32-36 | the statement begins with the host and ends with `\n\nPlease sign in.` |
| Navbar.VerifyWallet | apps/web/src/components/navbar.tsx:29-46 | nothing happens iff there is no key, no signer or a stored token; otherwise the body carries the base58 key, the padded base64 signature and the statement itself, and always passes the sign-in schema |
| Navbar.RequestSignsIn | apps/web/src/components/navbar.tsx:38-46 | with an honest wallet and a reachable database, the header's request signs in with 200 |
| Navbar.StoredTokenAsWritten | apps/web/src/components/navbar.tsx:42-48 | something is stored iff the reply is 2xx |
| Navbar.StoresUndefined | apps/web/src/components/navbar.tsx:48 | every successful sign-in stores the text "undefined", after which the guard never signs in again |
| Navbar.StoredTokenCorrected | apps/web/src/components/navbar.tsx:48 | the corrected read stores a token iff the reply is 2xx |
| Navbar.CorrectedTokenVerifies | apps/web/src/components/navbar.tsx:48 | under a sound codec, the token stored by the corrected read passes `verify` with 200 |

## Left out

- Cryptography is abstract. Ed25519 (tweetnacl), `jsonwebtoken` and `@solana/web3.js` key parsing are function-valued fields of `Crypto.Crypto` and `Jwt.Codec`. jsonwebtoken's error classes become "verify returns nothing" (401). A payload without `userId` becomes the 500 path. `jwt.sign` failing is not modelled.
- Prisma becomes sequences of rows.
  - Ids are row positions rendered as decimal text, not uuids.
  - An unreachable database is the flag `Store.online`.
  - The duplicate-slug failure on insert is the 500 path.
  - Concurrency is out, including the race between `findFirst` and `create`.
- `Math.random` and `new Date()` are parameters: the base-36 rendering of the random number, and the `now` and timestamp text.
- Goals are `real`, so NaN and infinite goals are not modelled. `toFixed` and `Math.round` in general are not modelled either.
- `toLowerCase` is ASCII only. Characters whose lowercase is an ASCII letter (U+0130, U+212A) are not modelled. `\s` is the exact JavaScript set.
- Lengths count Unicode scalar values, not UTF-16 code units. Lone surrogates do not occur.
- `Utf8.Decode` replaces each byte of an invalid sequence with U+FFFD. It does not implement the WHATWG maximal-subpart rule. Only valid input reaches it here.
- zod's `.url()` and `getCampaignSchema` are parameters of `ServerEnv.Env` (`isUrl`, `isValidSlug`). Their definitions are not part of this model.
- `MAX_FILE_SIZE` and `NEXT_PUBLIC_CDN_URL` are parameters. The mime-type split on line 124 of the campaign form is not modelled.
- I/O is out: axios and `fetch`, localStorage beyond the stored text, the clipboard, toasts, date formatting, response headers (`createActionHeaders`) and the options handler.
- The `donation`, `donationOption`, `signedURL`, `getCampaign` and `getUserCampaigns` handlers are not part of this model.
- UI glue is out: React state, Redux slices, providers, `with-auth` and the pages' markup.
- `useAuthQueries`'s `signIn` is taken to post the body to the server's sign-in handler.
- The navbar's `BACKEND_URL/signin` is taken to reach the server's sign-in handler.
- The bytes `bs58.decode` returns are discarded by both schemas. Only whether it throws is modelled.
- CampaignQueries.MatchesFilter: react-query also matches object elements of a key partially. All filter elements used here are strings, where that is plain equality.
- Store.InsertCampaign: `totalRaised` 0 and `active` true are assumed defaults of the Prisma schema, which is not part of this model.
- Store.Valid: unique wallet addresses and unique slugs are assumed unique columns of the Prisma schema. Slug uniqueness is suggested by `findUnique({ where: { slug } })` in apps/server/src/controllers/actions/index.ts:32.
- CampaignQueries.HashesInjective: react-query's sorting of object members in `hashKey` is not modelled. Object or `null` filters may share a hash, as `UndefinedFilterHashesAsNull` shows.
- Navbar.StorageText: `String(v)` of a number or an array is not modelled. The sign-in reply never puts either at `token`.

## Findings

| source | as written | input that shows it | evidently intended | confidence | as-written member | corrected member |
|---|---|---|---|---|---|---|
| apps/web/src/components/signin-button.tsx:33 | the signature is sent as base58, but the server accepts only canonical base64 and base64-decodes it | any signature, e.g. 63 zero bytes then 58, sent as "1"×63 + "21": 65 characters, rejected with 400; any base58 text that does pass decodes to a multiple of 3 bytes, never 64, so 401 | send `Buffer.from(signature).toString("base64")` as the header does | not executed; high | SigninButton.ButtonSigninNeverSucceeds | SigninButton.CorrectedButtonSignsIn |
| apps/server/src/controllers/actions/index.ts:59-72 | the buttons say "Send 1 SOL", "Send 5 SOL", "Send 10 SOL" but carry amounts 0.1, 0.25 and 0.5 | any campaign's action payload | labels that name the amounts sent | not executed; high | Actions.LabelsDisagreeWithAmounts | Actions.CorrectedLabelsMatchAmounts |
| apps/web/src/components/navbar.tsx:48 | stores `res.data.token`, but sign-in puts the token at `data.token` inside the body | any successful sign-in: "undefined" is stored, and the guard then never signs in again | read `res.data.data.token` | not executed; high | Navbar.StoresUndefined | Navbar.CorrectedTokenVerifies |
| apps/web/src/hooks/useCampaignQueries.ts:115 | reads `error.response.data.message`, but the server's failure bodies carry `error` | a create rejected with 400 "Validation error" shows "Failed to create campaign" | read the body's `error` field, as `useVerifyToken` does | not executed; medium, since the API client is not part of this model and is assumed to expose the body as axios does | CampaignQueries.ServerFailureFallsBack | CampaignQueries.CorrectedShowsServerError |

The `verify` handler answers a missing header with 403 and the middleware with 401.
`Middleware.MissingTokenStatusesDiffer` states this difference. It is not listed as a
finding, because nothing shows that either status is unintended.
