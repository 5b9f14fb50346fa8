# FileEncryptionBE encryption-at-rest core, in Dafny

This project models the encryption-at-rest core of the FileEncryptionBE file service, and proves properties of that model.

On the file service side it covers:
- the cipher registry and the three per-algorithm ciphers;
- the algorithm enumeration with its string codec and the stored `files` row;
- the `FileService` RPCs: list, get, encrypt, decrypt and delete.

On the Node gateway it covers:
- the role guard;
- the user-table rules of `AuthService`.

| file | models |
|---|---|
| `Wrappers.dfy` | `Option` and `Result` |
| `Decimal.dfy` | the decimal `size` column: written with `to_string`, read with `parse::<u64>` |
| `Base64.dfy` | the `base64` crate's STANDARD engine (section 4 of RFC 4648) |
| `Cipher.dfy` | `file/src/service/cipher.rs` |
| `Entity.dfy` | `file/src/entity/file.rs` |
| `Files.dfy` | `file/src/service/file.rs`: the key-handle codec, owner-scoped queries, and the class `FileService` |
| `Guards.dfy` | `gateway/src/guards/role.guard.ts` |
| `Auth.dfy` | `gateway/src/modules/auth/auth.service.ts`: pure rules plus the class `AuthService` over the users map |

## How the model works

**Pure code.** Code the sources write as expressions is modelled as functions and lemmas: the ciphers, the enum codec, `to_proto`, the handle codec, the guard, search and getById.

**State that changes.** The two services are classes:
- `FileService.files` is the `files` table as a sequence in table order. `EncryptFile` and `DeleteFile` reassign it.
- `AuthService.users` is the `users` table as a map from id to row. `Register`, `Login`, `Logout` and `Update` reassign it.

**Foreign code and non-deterministic values are parameters:**
- ChaCha20-Poly1305 is an `Aead` value: a seal function and an open function. Its laws from section 2.8 of RFC 8439 are the predicate `IsChaCha20Poly1305`, and the lemmas that need those laws require it.
- The key and nonce drawn from `OsRng` are a `Draw`.
- Whether a database call fails is a flag.
- The UUID and timestamps are parameters.
- bcrypt and JWT become the functions `passwordMatches`, `sign` and `verify`.

**Panics** are an outcome of their own: `Panic` or `Panicked`. They come from `get_cipher` with an unknown name, `from_slice` with a wrong length, and `get_all_files`'s `unwrap`.

**Behaviours of the code that the model keeps as they are:**
- The handle codec accepts empty segments: "::" is a valid handle for an empty nonce and an empty key.
- ChaCha decryption answers an empty vector when authentication fails, rather than an error (file/src/service/cipher.rs:57).
- The AES variants are placeholders: they return the data unchanged and detect no tampering.
- `decrypt_file` decrypts an empty buffer (`let data: Vec<u8> = vec![]`, file/src/service/file.rs:168), not the stored content, which the `files` row does not hold. A successful decryption therefore always yields an empty file: see `Files.DecryptAfterEncrypt`.

**Unique-constraint errors in the gateway.** The gateway's connection is a Postgres pool (gateway/src/database/drizzle.module.ts:20-24). A unique-constraint violation therefore never has code `'SQLITE_CONSTRAINT'`. The 409 branches of `register` and `update` are unreachable, and a clash is answered 500.

## Model

| member | source | states |
|---|---|---|
| Decimal.ToDecimal | file/src/service/file.rs:114 | `size.to_string()` is a non-empty string of digits with no leading zero |
| Decimal.ParseU64 | file/src/entity/file.rs:23 | `parse::<u64>` succeeds exactly when, after one optional '+', the text is a non-empty run of digits whose value is below 2^64, and then returns that value |
| Decimal.ParseRejectsMalformed | file/src/entity/file.rs:23 | the empty string, a lone '+', a minus sign, a trailing letter and a leading space do not parse |
| Decimal.ParseRejectsLong | file/src/entity/file.rs:23 | every numeral of 21 digits or more without a leading zero overflows and does not parse |
| Decimal.ParseBoundary | file/src/entity/file.rs:23 | "18446744073709551615" parses to 2^64 - 1, and "18446744073709551616" (2^64) does not parse |
| Decimal.ValueOfDecimal | file/src/service/file.rs:114 | the digits `to_string` writes denote the number written |
| Decimal.ParseDecimal | file/src/entity/file.rs:23 | parsing a size written by `to_string` gives the size back |
| Base64.Encode | file/src/service/file.rs:132-136 | the encoding is 4⌈n/3⌉ characters, all from the alphabet or '=' (never ':') |
| Base64.DecodeGroup | file/src/service/file.rs:174-182 | one four-character group decodes to 1 to 3 bytes; padding is allowed only in the last group |
| Base64.Decode | file/src/service/file.rs:174-182 | an accepted text is whole groups of four alphabet or pad characters, each group giving 3 bytes, less at most 2 in the last |
| Base64.DecodeEncode | file/src/service/file.rs:174-182 | decoding an encoding gives the bytes back |
| Base64.EncodeDecode | file/src/service/file.rs:174-182 | only canonical text decodes: whatever decodes is the encoding of its result |
| Base64.DecodeIff | file/src/service/file.rs:174-182 | `decode(s) == Ok(b)` if and only if `s == encode(b)` |
| Cipher.GetCipher | file/src/service/cipher.rs:61-67 | exactly the three names give a cipher, and only "chacha20poly1305" gives ChaCha; any other name panics |
| Cipher.Encrypt | file/src/service/cipher.rs:16-51 | AES returns (data, b"key", empty nonce); ChaCha returns the drawn key and nonce |
| Cipher.Decrypt | file/src/service/cipher.rs:21-58 | AES returns the data whatever the key and nonce; ChaCha panics exactly when the key is not 32 bytes or the nonce is not 12 |
| Cipher.RoundTrip | file/src/service/cipher.rs:15-58 | every cipher decrypts its own output back to the plaintext |
| Cipher.ChaChaShape | file/src/service/cipher.rs:44-51 | ChaCha yields a 32-byte key, a 12-byte nonce, and a ciphertext 16 bytes longer than the plaintext |
| Cipher.EmptyCipherTextOpensEmpty | file/src/service/cipher.rs:53-58 | the empty ciphertext fails authentication and comes out as the empty vector |
| Cipher.AuthFailureLooksEmpty | file/src/service/cipher.rs:57 | a forged ciphertext decrypts to the same empty vector as the sealed empty plaintext |
| Cipher.TamperNeverYieldsPlaintext | file/src/service/cipher.rs:57 | a ciphertext other than the seal of p never decrypts to a non-empty p |
| Cipher.AesVariantsAgree | file/src/service/cipher.rs:15-39 | the AES-128 and AES-256 placeholders agree on every input |
| Cipher.AesPlaceholderIsNotFresh | file/src/service/cipher.rs:16-19 | the AES placeholders ignore the draw, and their ciphertext is the plaintext |
| Cipher.ChaChaIsFresh | file/src/service/cipher.rs:44-51 | distinct draws give distinct ChaCha key material |
| Entity.StringValue | file/src/entity/file.rs:36-45 | the stored column holds one of the three names, and distinct variants store distinct names |
| Entity.FromStr | file/src/entity/file.rs:50-56 | exactly the three names parse, and each parses to the variant that prints as it |
| Entity.ToString | file/src/entity/file.rs:60-68 | `Display` prints the sea_orm `string_value` of the variant |
| Entity.ParseDisplayed | file/src/entity/file.rs:47-69 | `from_str(to_string(m)) == Ok(m)` for every variant |
| Entity.DisplayParsed | file/src/entity/file.rs:50-66 | `to_string(from_str(s)) == s` for every accepted string |
| Entity.DisplayInjective | file/src/entity/file.rs:62-66 | distinct variants print distinct strings |
| Entity.ToProto | file/src/entity/file.rs:19-28 | id, name and timestamps are copied; the printed method parses back to the stored one; the size is the value `parse::<u64>` reads from the text, or 0 when it does not parse, so always below 2^64 |
| Entity.ProtoSize | file/src/entity/file.rs:23 | a size written by `to_string` reads back unchanged; any text that parses reads as its parsed value; an unparsable size reads as 0 |
| Entity.NonCanonicalSizes | file/src/entity/file.rs:23 | sizes `to_string` never writes still parse: "007" and "+7" both read as 7 |
| Files.DelimiterFrom | file/src/service/file.rs:170 | finds the first "::" at or after an index, or proves there is none |
| Files.SplitOnce | file/src/service/file.rs:170-172 | `split_once("::")` splits at the first "::", or fails exactly when there is none |
| Files.EncodeHandle | file/src/service/file.rs:132-136 | the issued handle holds exactly one "::", right after the nonce's encoding, because base64 never emits ':' |
| Files.DecodeHandle | file/src/service/file.rs:170-182 | every failure is InvalidArgument; the format error comes exactly when "::" is missing; an accepted handle is the encoding of its result |
| Files.SplitEncodedHandle | file/src/service/file.rs:132-136 | an issued handle splits back into its two encodings at its first "::" |
| Files.HandleRoundTrip | file/src/service/file.rs:132-182 | decoding an issued handle gives back exactly the nonce and key |
| Files.HandleErrorOrder | file/src/service/file.rs:170-182 | after the split, a bad nonce is reported before a bad key, and the key is checked last |
| Files.EmptySegmentsAccepted | file/src/service/file.rs:170-182 | "::" is accepted as an empty nonce and an empty key |
| Files.SameIdSameRow | file/src/entity/file.rs:8-9 | with `id` as the primary key, two rows with the same id are the same row |
| Files.FindOwned | file/src/service/file.rs:58-65 | the owner-scoped lookup returns a row with both the id and the owner, or there is none |
| Files.ListOwned | file/src/service/file.rs:31-35 | exactly the caller's rows, and unique ids stay unique |
| Files.RemoveId | file/src/service/file.rs:222 | exactly the rows with another id remain, and unique ids stay unique |
| Files.AppendFreshKeepsUnique | file/src/service/file.rs:110-121 | inserting a row with a fresh id keeps the primary key unique |
| Files.Views | file/src/service/file.rs:37-47 | one `to_proto` view per row, in order |
| Files.OwnerIsolation | file/src/service/file.rs:58-63 | another owner's row is never found, though it exists |
| Files.ListedIffFound | file/src/service/file.rs:31-65 | a row is listed for a caller exactly when the owner-scoped lookup finds it |
| Files.RemoveKeepsOtherLookups | file/src/service/file.rs:222 | deleting one id leaves every lookup of another id unchanged |
| Files.RegistryMatchesEnum | file/src/service/file.rs:115-116 | `get_cipher` and `from_str` accept the same names, so the InvalidArgument at line 116 is unreachable |
| Files.CipherFor | file/src/service/file.rs:184 | the cipher of a stored method is what `get_cipher` answers for its stored name, so decryption never hits the unknown-name panic |
| Files.NewRecord | file/src/service/file.rs:110-119 | the inserted row carries the new id, the caller, the file name, the parsed method and one timestamp twice; its size text is the digits of the content length and parses back to it below 2^64 |
| Files.StoredViewMatchesResponse | file/src/service/file.rs:103-131 | the inserted row, read back through `to_proto`, is the metadata the response carried |
| Files.FileService.constructor | file/src/service/file.rs:17-19 | a service over an existing table |
| Files.FileService.GetAllFiles | file/src/service/file.rs:25-50 | a database error panics; otherwise the result is one view per row of the caller, in table order, and each is the view of a row in the table |
| Files.FileService.GetFile | file/src/service/file.rs:52-90 | Internal on a database error; NotFound exactly when no row has both the id and the owner; otherwise the view of the row the owner-scoped lookup finds |
| Files.FileService.EncryptFile | file/src/service/file.rs:92-141 | the registry panics first, then a missing file is InvalidArgument; the response carries size = length, created = updated, the echoed method and the handle; the row is inserted only if the insert succeeds and the id is fresh, and `get_file` then returns the response's metadata |
| Files.FileService.DecryptFile | file/src/service/file.rs:150-203 | Internal, then NotFound before the handle is read; for a found row a handle the decoder refuses gives exactly the decoder's InvalidArgument, and an InvalidArgument comes from nowhere else |
| Files.FileService.DeleteFile | file/src/service/file.rs:205-240 | Internal, NotFound or Internal-on-delete leave the table unchanged; success removes that id alone, after which `get_file` is NotFound |
| Files.ListingAgreesWithGet | file/src/service/file.rs:25-90 | every view `get_all_files` lists is what `get_file` answers for that id and owner, and every row of the caller is listed |
| Files.DeleteIsolated | file/src/service/file.rs:221-233 | a deleted id is gone for every owner, and other lookups are unchanged |
| Files.DecryptRoutedByStoredMethod | file/src/service/file.rs:184-186 | the cipher comes from the stored method: an AES row returns the empty placeholder; a ChaCha row panics exactly on a wrong key or nonce length, and otherwise returns empty |
| Files.DecryptAfterEncrypt | file/src/service/file.rs:166-193 | the issued handle, given back for its row, always parses and never panics, and yields an empty file |
| Guards.CanActivate | gateway/src/guards/role.guard.ts:11-30 | access is granted exactly when no roles are required or the user holds a required role; a grant leaves the request unchanged; a refusal carries the Forbidden message |
| Guards.UnguardedHandlerAdmitsAll | gateway/src/guards/role.guard.ts:12-16 | with no roles metadata everyone passes, an anonymous request included |
| Guards.GuardedHandlerRefusesAnonymous | gateway/src/guards/role.guard.ts:18-25 | on a guarded handler, a request without a user is refused |
| Guards.EmptyRoleListRefusesAll | gateway/src/guards/role.guard.ts:16-25 | an empty list of required roles refuses everyone |
| Guards.MoreRolesAdmitMore | gateway/src/guards/role.guard.ts:21 | adding required roles never refuses a request that was admitted |
| Guards.OnlyTheRoleSetMatters | gateway/src/guards/role.guard.ts:21 | the order and repetition of the required roles do not matter |
| Auth.LoginMatchUnique | gateway/src/modules/auth/auth.service.ts:35-41 | with unique usernames and emails, at most one row matches a login |
| Auth.UsernameTakesPrecedence | gateway/src/modules/auth/auth.service.ts:35-41 | when a username is given, the email plays no part |
| Auth.NoCredentialMatchesNothing | gateway/src/modules/auth/auth.service.ts:34-45 | with neither a username nor an email, nothing matches |
| Auth.LoginMatches | gateway/src/modules/auth/auth.service.ts:35-41 | a match needs a credential; with a username, a row matches exactly when it has that username; without one, exactly the rows with the given email match |
| Auth.RefreshErrorAsWritten | gateway/src/modules/auth/auth.service.ts:79-104 | as written, refresh goes on to sign exactly for a non-empty, verified, held token |
| Auth.RefreshError | gateway/src/modules/auth/auth.service.ts:79-104 | as intended, the same, and a verified token that no row holds is 403 |
| Auth.RefreshUnheldIsInternalError | gateway/src/modules/auth/auth.service.ts:86 | as written, that token gets 500; as intended, 403 |
| Auth.RefreshCorrectionIsLocal | gateway/src/modules/auth/auth.service.ts:95-103 | the correction changes that case and no other |
| Auth.Merge | gateway/src/modules/auth/auth.service.ts:114-119 | the update never touches id, username, password, refresh token, verification or createdAt, and always sets updatedAt; each of name, email and role takes the given value when it is non-empty and keeps its old value when it is empty |
| Auth.MergeIdempotent | gateway/src/modules/auth/auth.service.ts:114-123 | applying the same update twice is applying it once |
| Auth.MergeFields | gateway/src/modules/auth/auth.service.ts:114-119 | an update with no fields only touches updatedAt; in general the merged row is the old row with exactly the truthy fields and updatedAt replaced |
| Auth.SearchAsWritten | gateway/src/modules/auth/auth.service.ts:134-147 | as written: with an email, every result has that email; with only a name, every result has that name; every row passing the filter in force is returned, and only table rows are |
| Auth.Search | gateway/src/modules/auth/auth.service.ts:134-147 | as intended: every result passes both filters given, every row that passes them is returned, and only table rows are |
| Auth.SearchFinds | gateway/src/modules/auth/auth.service.ts:134-147 | as intended, a row is returned exactly when it passes both the name filter and the email filter |
| Auth.SearchAsWrittenIgnoresName | gateway/src/modules/auth/auth.service.ts:136-141 | as written, when an email is given the result is the email search alone |
| Auth.SearchAsWrittenMismatch | gateway/src/modules/auth/auth.service.ts:136-141 | a row whose name differs from the one searched for is returned as written, but not as intended |
| Auth.SearchIgnoresSecrets | gateway/src/modules/auth/auth.service.ts:143-146 | tables that differ only in password, refreshToken, isVerified and timestamps give the same results |
| Auth.GetById | gateway/src/modules/auth/auth.service.ts:149-158 | 403 exactly when a "USER" asks for another id, decided before the lookup; 404 exactly otherwise when the id is missing; else the view row |
| Auth.GetByIdRefusalIndependentOfTable | gateway/src/modules/auth/auth.service.ts:150-153 | the 403 is the same whatever the table holds |
| Auth.GetByIdAllowed | gateway/src/modules/auth/auth.service.ts:150-157 | callers read their own record, and non-"USER" roles read any record |
| Auth.AuthService.constructor | gateway/src/modules/auth/auth.service.ts:14-17 | a service over an existing table and the foreign functions |
| Auth.AuthService.Register | gateway/src/modules/auth/auth.service.ts:19-31 | a clash on id, username or email is 500 and changes nothing; otherwise exactly one row is added, with the hash, role "USER" and no token, and it matches a later login with that password |
| Auth.AuthService.Login | gateway/src/modules/auth/auth.service.ts:33-68 | 404 when nothing matches and 401 on a wrong password, both changing nothing; otherwise tokens for the row's claims, with the refresh token stored on that row only |
| Auth.AuthService.Logout | gateway/src/modules/auth/auth.service.ts:70-77 | an empty token changes nothing; otherwise the token is cleared from exactly the rows holding it, so no row holds it afterwards |
| Auth.AuthService.Refresh | gateway/src/modules/auth/auth.service.ts:79-105 | errors as in `RefreshError`, and when `RefreshError` has none an access token is always signed, for the claims of a row holding the token; a logged-out token is 403 |
| Auth.AuthService.Update | gateway/src/modules/auth/auth.service.ts:107-132 | 404 for an unknown id and 500 for an email another row has, both changing nothing; otherwise only that row becomes its merge |

## Left out

- `download_encrypted_file` (file/src/service/file.rs:143-148) is a stub answering "unimplemented", and is not modelled.
- file/src/service.rs and file/src/file.rs are earlier copies of the service and entity. The live service is `service::file::FileService`.
- Process bootstrapping, proto generation and the gRPC/HTTP plumbing (tonic, NestJS, async) are transport, not logic.
- Blob storage is absent from the code. No ciphertext is saved, and decryption reads the empty placeholder, so the model cannot state a stored-ciphertext round trip.
- The ChaCha20-Poly1305 arithmetic is foreign library code. Only its laws are stated: the tag length, and that opening succeeds exactly on what sealing produced.
- `OsRng` is a `Draw` parameter. The model does not state how likely two draws are to collide.
- Cipher.Encrypt: ChaCha's `encrypt(...).unwrap()` fails only for plaintexts beyond the AEAD's length limit (about 256 GiB); the model never panics there.
- Files.FileService.EncryptFile: `size as u64` is not truncated. Sizes of 2^64 bytes or more cannot occur, and `StoredViewMatchesResponse` requires a size below that bound.
- Files.FileService.EncryptFile: the insert's own errors are not modelled in detail. A flag stands for "the database accepted the row", and a duplicate id is refused as the primary key demands.
- Files.FileService.GetAllFiles: it returns the rows in table order, whereas the query has no ORDER BY and the database promises no order.
- The UUID and the `chrono` timestamp are parameters. The model does not assume the UUID is fresh.
- bcrypt and JWT are uninterpreted functions. `verify`'s outcome is a function of the token and the instant; token lifetimes and secrets are labels only.
- Auth.AuthService.Refresh: when several rows hold the same token, the model may pick any of them. The query takes its first row in an order the database does not promise.
- Auth.AuthService.Refresh: follows the corrected `RefreshError`. For a verified token that no row holds it answers 403 "Invalid refresh token", where the code as written answers 500; `RefreshErrorAsWritten` and the Findings table record the code's behaviour.
- Auth.AuthService.Register: the password hash is a parameter, required to satisfy `passwordMatches` with the password, as bcrypt's hash does. The DTO's demand for a username and an email is the precondition; the other class-validator rules are not modelled.
- Gateway database failures other than unique-constraint violations are not modelled. Neither are the controller's cookie handling, the environment and ORM configuration, or `console.log`.
- The file service's console logging is not modelled: `println!` in the ciphers (file/src/service/cipher.rs:17,22,31,36) and `eprintln!` on database errors (file/src/service/file.rs:86,199,227,236). Output only; the AES-128 placeholder's messages say "AES256GCM", which changes no result.
- Auth.SearchAsWritten and Auth.Search return a set, because the query has no ORDER BY.
- Guards.CanActivate: the `roles` metadata lookup through `Reflector` and the `ExecutionContext` become its two arguments.

## Findings

| source | as written | input that shows it | evidently intended | confidence | as-written member | corrected member |
|---|---|---|---|---|---|---|
| gateway/src/modules/auth/auth.service.ts:136-141 | when an email is given, the second `where` replaces the name condition, so the name is ignored | name "Bob" and email "ann@x.io", on a table whose only row is Ann with that email: Ann is returned | return only rows that match both the name and the email | medium, not executed | Auth.SearchAsWrittenMismatch | Auth.SearchFinds |
| gateway/src/modules/auth/auth.service.ts:86 | the 403 thrown for a token no row holds is caught at lines 95-103 and answered 500 | a verified refresh token after `logout` cleared it | 403 "Invalid refresh token" | high, not executed | Auth.RefreshUnheldIsInternalError | Auth.RefreshError |
