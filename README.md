# Licence management core, modelled in Dafny

This project models the licensing core of a software distribution system. A
**licence** is created for a product and a customer email. It carries a
generated key of the form `XXXX-XXXX-XXXX-XXXX`, lasts a number of days and
may be activated on at most a fixed number of machines. A licence can be
activated on and deactivated from machines, expires with time, and can be
revoked for good. The **in-memory repository** stores licences by key. The
**licence service** creates licences, validates a key and reports a
customer's licences and the licences about to expire.

Modules, one per file:

- `Failures` (`failures.dfy`): `Option`, `Result`, `Outcome` and the two
  exception kinds the core raises. `Error.Message` gives .NET's message
  format, in which an argument exception appends ` (Parameter 'name')`.
- `Text` (`text.dfy`): `char.IsWhiteSpace`, `string.IsNullOrWhiteSpace`
  (`IsBlank`), upper-casing and case-insensitive equality.
- `Lists` (`lists.dfy`): duplicate-freedom, `IndexOf` and
  `List.Remove` (`RemoveFirst`).
- `Email` (`email.dfy`): the email pattern, as a ghost predicate
  and as an executable test proved equal to it.
- `LicenseKeys` (`licence_key.dfy`): formatting a key from a GUID.
- `Licenses` (`licence.dfy`): the licence. `LicenseRecord` is its state as a
  value, with the pure operations and the invariant. The class `License`
  has the same fields, and its methods change them in place; each method's
  contract ties the new state to the value operation.
- `LicenseRepository` (`repository.dfy`): the class
  `InMemoryLicenseRepository`, a dictionary from key to licence. .NET
  leaves a `Dictionary`'s enumeration order undefined. The model assumes
  insertion order, which is what the implementation yields when no entry
  is removed, and keeps it as the sequence of keys.
- `LicenseServices` (`service.dfy`): the DTO shapes and the class
  `LicenseService`.

Conventions:

- Timestamps are DateTime ticks (100 ns). `AddDays(d)` adds
  `d * TicksPerDay`.
- The clock reading (`DateTime.UtcNow`) and the random GUID
  (`Guid.NewGuid()`) are parameters: `now` and `guidN`.
- An exception is an `Err` or `Fail` value holding the exception kind and
  its message.

Two consequences of the source, stated and proved here:

- The email check accepts an address followed by one newline. .NET's `$`
  also matches before a final `\n` (`Email.IsValidEmail`).
- A key keeps only the first 16 of the GUID's 32 hexadecimal digits, 64
  bits of 128 (`LicenseKeys.FormatKeyInjective`). `Guid.NewGuid()` makes
  version-4 GUIDs, whose 13th digit is always `4`, so only 60 of those 64
  bits are random. The model treats the GUID as an arbitrary parameter, so
  it does not rely on that.

## Model

| member | source | states |
|---|---|---|
| Failures.Error.Message | Security-Software-Distribution-System/src/SecurityDistribution.Application/Services/LicenceService.cs:52 | the message starts with the description; it is the description alone exactly for an invalid-operation error; for an argument error the description is followed by " (Parameter '", the parameter name and "')", and nothing else |
| Text.IsBlank | Security-Software-Distribution-System/src/SecurityDistribution.Domain/Entities/Licence.cs:30-34 | the empty string is blank, and a one-character string is blank exactly when its character is white space |
| Text.BlankConcat | Security-Software-Distribution-System/src/SecurityDistribution.Domain/Entities/Licence.cs:30-34 | a concatenation is blank exactly when both of its parts are |
| Text.UpperAscii | Security-Software-Distribution-System/src/SecurityDistribution.Domain/Entities/Licence.cs:117 | maps lower-case letters to upper-case ones, and maps the lower-case hexadecimal digits exactly onto the upper-case ones |
| Text.UpperAsciiInjective | Security-Software-Distribution-System/src/SecurityDistribution.Domain/Entities/Licence.cs:117 | on characters that are not upper-case letters, two characters upper-case to the same character exactly when they are equal |
| Lists.RemoveFirst | Security-Software-Distribution-System/src/SecurityDistribution.Domain/Entities/Licence.cs:93 | an absent element leaves the list unchanged; for a present one the result drops its first occurrence and keeps every other element in order |
| Text.IsWhiteSpace | Security-Software-Distribution-System/src/SecurityDistribution.Domain/Entities/Licence.cs:30-34 | the one set that Char.IsWhiteSpace and the email pattern's \s both use, written out by code point; the contract states that no visible ASCII character, in particular no letter, digit, @, . or -, is white space |
| Text.EqualsIgnoreCase | Security-Software-Distribution-System/src/SecurityDistribution.Infrastructure/Repositories/InMemoryLicenseRepository.cs:51 | two strings are equal ignoring case exactly when their upper-cased forms are equal |
| Text.ToUpper | Security-Software-Distribution-System/src/SecurityDistribution.Domain/Entities/Licence.cs:117 | upper-casing keeps the length and maps each character through its ASCII upper-case form |
| Email.HasAddressShape | Security-Software-Distribution-System/src/SecurityDistribution.Domain/Entities/Licence.cs:123 | the evaluation by first `@` and a later `.` holds exactly when the string is local part, `@`, domain, `.`, suffix, all without `@` or white space |
| Email.IsValidEmail | Security-Software-Distribution-System/src/SecurityDistribution.Domain/Entities/Licence.cs:121-124 | true exactly when the string matches `^[^@\s]+@[^@\s]+\.[^@\s]+$` (with .NET's `$`, which also accepts one final newline); a valid email is never blank and contains `@` |
| LicenseKeys.FormatKey | Security-Software-Distribution-System/src/SecurityDistribution.Domain/Entities/Licence.cs:115-119 | the key has the shape XXXX-XXXX-XXXX-XXXX over upper-case hexadecimal digits, and its digits are the GUID's first 16, upper-cased |
| LicenseKeys.FormatKeyInjective | Security-Software-Distribution-System/src/SecurityDistribution.Domain/Entities/Licence.cs:117-118 | two GUIDs give the same key if and only if their first 16 digits agree (the key keeps 16 of the 32 hexadecimal digits, 64 of the 128 bits) |
| LicenseKeys.KeyFormatNotBlank | Security-Software-Distribution-System/src/SecurityDistribution.Domain/Entities/Licence.cs:118 | a formatted key is never blank |
| Licenses.LicenseRecord.CurrentActivations | Security-Software-Distribution-System/src/SecurityDistribution.Domain/Entities/Licence.cs:24 | zero exactly when no machine holds an activation |
| Licenses.ActivationsCountMachines | Security-Software-Distribution-System/src/SecurityDistribution.Domain/Entities/Licence.cs:24 | for a licence the entity built, the number of activations is the number of distinct machines on the roster |
| Licenses.ExpiryIsPermanent | Security-Software-Distribution-System/src/SecurityDistribution.Domain/Entities/Licence.cs:99-102 | a licence expired at an instant is expired at every later instant, and then no machine can be activated on it |
| Licenses.LicenseRecord.CanActivate | Security-Software-Distribution-System/src/SecurityDistribution.Domain/Entities/Licence.cs:60-68 | true exactly when the licence is active, not expired at now, and the machine is already on the roster or a slot is free |
| Licenses.LicenseRecord.Activated | Security-Software-Distribution-System/src/SecurityDistribution.Domain/Entities/Licence.cs:73-83 | succeeds exactly for a non-blank id that CanActivate accepts; the argument error is raised exactly for a blank id; on success every field but the roster is kept, a machine already listed leaves the licence unchanged, and a new machine is appended to the roster |
| Licenses.LicenseRecord.Deactivated | Security-Software-Distribution-System/src/SecurityDistribution.Domain/Entities/Licence.cs:88-94 | succeeds exactly when the machine is on the roster, removing one entry; otherwise an invalid-operation error |
| Licenses.LicenseRecord.Revoked | Security-Software-Distribution-System/src/SecurityDistribution.Domain/Entities/Licence.cs:107-111 | afterwards inactive with an empty roster; every other field is kept |
| Licenses.CheckArguments | Security-Software-Distribution-System/src/SecurityDistribution.Domain/Entities/Licence.cs:30-43 | passes exactly when the product name is not blank, the email is valid and both counts are positive; otherwise an argument error from the first check that failed; its parameter name and its description are each stated both ways, so the blank-email and malformed-email cases are told apart |
| Licenses.NewLicense | Security-Software-Distribution-System/src/SecurityDistribution.Domain/Entities/Licence.cs:27-53 | fails exactly when a check fails, with that error; otherwise a licence with the key formatted from the GUID, the given product, email and ceiling, created at now, active with no activations, satisfying the invariant, not expired at now, and expiring validityDays days after its creation |
| Licenses.ActivatePreservesInvariant | Security-Software-Distribution-System/src/SecurityDistribution.Domain/Entities/Licence.cs:73-83 | a successful activation keeps the invariant (roster within the ceiling, no machine twice) and leaves the machine on the roster |
| Licenses.ActivateIdempotent | Security-Software-Distribution-System/src/SecurityDistribution.Domain/Entities/Licence.cs:60-83 | activating a machine again after it succeeded is accepted and changes nothing |
| Licenses.DeactivatePreservesInvariant | Security-Software-Distribution-System/src/SecurityDistribution.Domain/Entities/Licence.cs:88-94 | a successful deactivation keeps the invariant, removes that machine and keeps every other machine and field |
| Licenses.DeactivateUndoesActivate | Security-Software-Distribution-System/src/SecurityDistribution.Domain/Entities/Licence.cs:73-94 | deactivating a machine right after its first activation restores the licence exactly |
| Licenses.RevokeIsTerminal | Security-Software-Distribution-System/src/SecurityDistribution.Domain/Entities/Licence.cs:60-111 | after revocation the invariant holds, every activation and deactivation fails, and revoking again changes nothing |
| Licenses.ActivateEachPreservesInvariant | Security-Software-Distribution-System/src/SecurityDistribution.Domain/Entities/Licence.cs:60-83 | after any sequence of activation attempts the invariant holds and no more machines are active than the ceiling |
| Licenses.ActivationLimit | Security-Software-Distribution-System/src/SecurityDistribution.Domain/Entities/Licence.cs:60-83 | for n distinct new machines on an active, unexpired licence with k free slots, exactly min(n, k) attempts succeed, and they are the first ones, appended in order |
| Licenses.License.Init | Security-Software-Distribution-System/src/SecurityDistribution.Domain/Entities/Licence.cs:45-52 | the new licence satisfies the invariant and is exactly the value NewLicense describes |
| Licenses.License.Create | Security-Software-Distribution-System/src/SecurityDistribution.Domain/Entities/Licence.cs:27-53 | fails with the error of the first failed check, or returns a fresh licence that satisfies the invariant and equals NewLicense |
| Licenses.License.Activate | Security-Software-Distribution-System/src/SecurityDistribution.Domain/Entities/Licence.cs:73-83 | the outcome and the new state are those of Activated on the old state; a failure changes nothing; the invariant is kept |
| Licenses.License.Deactivate | Security-Software-Distribution-System/src/SecurityDistribution.Domain/Entities/Licence.cs:88-94 | the outcome and the new state are those of Deactivated on the old state; a failure changes nothing; the invariant is kept |
| Licenses.License.Revoke | Security-Software-Distribution-System/src/SecurityDistribution.Domain/Entities/Licence.cs:107-111 | the new state is Revoked of the old one; the invariant is kept |
| LicenseRepository.Where | Security-Software-Distribution-System/src/SecurityDistribution.Infrastructure/Repositories/InMemoryLicenseRepository.cs:43-89 | the stored values that satisfy the filter: each result satisfies it and is the stored value, each satisfying value appears, none twice |
| LicenseRepository.WhereKeepsOrder | Security-Software-Distribution-System/src/SecurityDistribution.Infrastructure/Repositories/InMemoryLicenseRepository.cs:50-52 | the results keep the enumeration order: of two results, the earlier one's key comes first in the order |
| LicenseRepository.InsertKeepsInvariant | Security-Software-Distribution-System/src/SecurityDistribution.Infrastructure/Repositories/InMemoryLicenseRepository.cs:22-25 | filing a licence under a new key and appending the key to the enumeration order keeps the store invariant |
| LicenseRepository.ReplaceKeepsInvariant | Security-Software-Distribution-System/src/SecurityDistribution.Infrastructure/Repositories/InMemoryLicenseRepository.cs:65-68 | overwriting the entry of a present key keeps the store invariant and the set of keys |
| LicenseRepository.FilingKeepsFiled | Security-Software-Distribution-System/src/SecurityDistribution.Infrastructure/Repositories/InMemoryLicenseRepository.cs:15-72 | filing a licence under its own key keeps every entry filed under its own key |
| LicenseRepository.InMemoryLicenseRepository.constructor | Security-Software-Distribution-System/src/SecurityDistribution.Infrastructure/Repositories/InMemoryLicenseRepository.cs:12 | the store starts empty |
| LicenseRepository.InMemoryLicenseRepository.Add | Security-Software-Distribution-System/src/SecurityDistribution.Infrastructure/Repositories/InMemoryLicenseRepository.cs:15-29 | refuses a present key with "License with key K already exists" and changes nothing; otherwise files the licence, appends its key to the order and GetByKey finds it |
| LicenseRepository.InMemoryLicenseRepository.GetByKey | Security-Software-Distribution-System/src/SecurityDistribution.Infrastructure/Repositories/InMemoryLicenseRepository.cs:31-41 | a licence exactly when the key is not blank and present, and then the stored one |
| LicenseRepository.InMemoryLicenseRepository.GetByCustomerEmail | Security-Software-Distribution-System/src/SecurityDistribution.Infrastructure/Repositories/InMemoryLicenseRepository.cs:43-56 | nothing for a blank email; otherwise exactly the stored licences whose email equals it ignoring case, each once |
| LicenseRepository.InMemoryLicenseRepository.Update | Security-Software-Distribution-System/src/SecurityDistribution.Infrastructure/Repositories/InMemoryLicenseRepository.cs:58-72 | refuses an absent key with "License with key K not found" and changes nothing; otherwise replaces that entry only; the enumeration order never changes |
| LicenseRepository.InMemoryLicenseRepository.GetExpiring | Security-Software-Distribution-System/src/SecurityDistribution.Infrastructure/Repositories/InMemoryLicenseRepository.cs:74-89 | an argument error exactly for a negative threshold; otherwise exactly the active stored licences with now <= expiration <= now + threshold days, each once |
| LicenseRepository.InMemoryLicenseRepository.Exists | Security-Software-Distribution-System/src/SecurityDistribution.Infrastructure/Repositories/InMemoryLicenseRepository.cs:91-100 | true exactly when the key is not blank and present, so it agrees with GetByKey |
| LicenseRepository.InMemoryLicenseRepository.FoundByOwnEmail | Security-Software-Distribution-System/src/SecurityDistribution.Infrastructure/Repositories/InMemoryLicenseRepository.cs:43-56 | a stored licence with a non-blank email is among the licences found by that email |
| LicenseServices.CreateFailure | Security-Software-Distribution-System/src/SecurityDistribution.Application/Services/LicenceService.cs:47-63 | never a success and never a key or date; an argument error reports its own message, any other error the generic one |
| LicenseServices.CustomerDto | Security-Software-Distribution-System/src/SecurityDistribution.Application/Services/LicenceService.cs:133-143 | copies key, product, creation and expiration dates, active flag and ceiling; the activations used are CurrentActivations and fit the ceiling for a licence the entity built; expired exactly when the licence is expired at now; no email and no days left |
| LicenseServices.WholeDays | Security-Software-Distribution-System/src/SecurityDistribution.Application/Services/LicenceService.cs:165 | never negative before the expiration and never positive after it |
| LicenseServices.ExpiringDto | Security-Software-Distribution-System/src/SecurityDistribution.Application/Services/LicenceService.cs:159-166 | copies key, product, email and expiration; the days left are WholeDays from now to the expiration, never negative before expiry and never positive after it; the fields it does not set keep their C# defaults |
| LicenseServices.CustomerDtos | Security-Software-Distribution-System/src/SecurityDistribution.Application/Services/LicenceService.cs:130-146 | one record per licence, in the same order, each the customer record of that licence |
| LicenseServices.ExpiringDtos | Security-Software-Distribution-System/src/SecurityDistribution.Application/Services/LicenceService.cs:156-169 | one record per licence, in the same order, each the expiring record of that licence |
| LicenseServices.WholeDaysWithin | Security-Software-Distribution-System/src/SecurityDistribution.Application/Services/LicenceService.cs:165 | a licence that expires within n days of now has between 0 and n whole days left |
| LicenseServices.WholeDaysBounds | Security-Software-Distribution-System/src/SecurityDistribution.Application/Services/LicenceService.cs:165 | the whole days between two instants round toward zero: d days span at least d and less than d + 1 days |
| LicenseServices.FilingKeepsLicences | Security-Software-Distribution-System/src/SecurityDistribution.Application/Services/LicenceService.cs:35-38 | storing a licence the entity built keeps every stored licence one the entity could have reached |
| LicenseServices.LicenseService.constructor | Security-Software-Distribution-System/src/SecurityDistribution.Application/Services/LicenceService.cs:15-21 | the service works over the store it is given, and satisfies its invariant when that store holds only licences the entity built |
| LicenseServices.LicenseService.CreateLicense | Security-Software-Distribution-System/src/SecurityDistribution.Application/Services/LicenceService.cs:26-64 | a failed check gives its message and no insertion; a duplicate key gives the generic message and no insertion; otherwise the licence is stored and its key and expiration returned, and the stored licence validates at once with no activations |
| LicenseServices.LicenseService.ValidateLicense | Security-Software-Distribution-System/src/SecurityDistribution.Application/Services/LicenceService.cs:69-121 | valid exactly when the key is found, active and not expired, then with the stored licence; otherwise no licence and the reason of the first failing check, each reason stated both ways |
| LicenseServices.LicenseService.ValidationAgreesWithCanActivate | Security-Software-Distribution-System/src/SecurityDistribution.Application/Services/LicenceService.cs:90-114 | a licence that does not validate accepts no machine, and one that validates accepts every machine on its roster |
| LicenseServices.LicenseService.GetCustomerLicenses | Security-Software-Distribution-System/src/SecurityDistribution.Application/Services/LicenceService.cs:126-147 | one record per licence of the email query, in order, with the activations in use and the expiry at now; activations used never exceed the ceiling |
| LicenseServices.LicenseService.GetExpiringLicenses | Security-Software-Distribution-System/src/SecurityDistribution.Application/Services/LicenceService.cs:152-170 | the negative-threshold error propagates exactly for a negative threshold; otherwise one record per expiring licence, in order, each with between 0 and threshold whole days left |

## Left out

- Locks and `async`/`Task`: each repository and service operation is one atomic step.
- The clock: every operation takes one reading `now`, and all readings within one operation are taken as equal. In the source, `GetCustomerLicensesAsync` reads the clock once per licence through `IsExpired()`. The repository's `GetExpiringLicensesAsync` reads it once for the threshold and again per licence through `IsExpired()`. The service's `GetExpiringLicensesAsync` reads it once more per licence for the days left.
- `Guid.NewGuid()` randomness: the GUID's "N" form is a parameter. Its 32 lower-case hexadecimal digits are a precondition, because that is what .NET produces.
- `DateTime` range limits: `AddDays` beyond year 9999 throws `ArgumentOutOfRangeException` in .NET. The model uses unbounded integers and does not model that throw.
- `LicenseServices.WholeDays`: `(int)TimeSpan.TotalDays` is computed in floating point. The model uses exact truncation toward zero and does not model rounding or the `int` cast overflow.
- `Text.EqualsIgnoreCase` and `Text.ToUpper`: they fold ASCII letters only, while `OrdinalIgnoreCase` and `ToUpper` also fold other Unicode letters. Key generation is unaffected, because a GUID holds only ASCII digits. The email query differs only for addresses with non-ASCII letters.
- Null arguments: `ArgumentNullException` for a null licence or repository cannot arise, because Dafny values are never null.
- Object identity: the repository stores licence values (`LicenseRecord`), not references to `License` objects. So a `License` changed after `AddAsync` is not seen changed through the store. The service stores the `Snapshot()` of the licence it has just built.
- `LicenseRepository.InMemoryLicenseRepository.Add`: it finds the licence again by `GetByKey` only for a non-blank key. The service always stores formatted keys, which are never blank.
- The licence's `CurrentActivations`, `IsExpired` and `CanActivate` are modelled on `LicenseRecord`, the licence's value. The class `License` reads them through `Snapshot()`.
- `LicenseService` is modelled against `InMemoryLicenseRepository` directly. The `ILicenseRepository` interface in the source declares `CreateLicense`, `GetLicense` and `ValidateLicenseKey`. It declares none of the methods the service calls on it (`AddAsync`, `GetByKeyAsync`, `GetByCustomerEmailAsync`, `GetExpiringLicensesAsync`), so the service is bound to the one store that has them. `ISecurityEventRepository` is held but never used, since every logging call is commented out.
- The security-event store is not part of this model. Neither are the activation entities and their repositories, the `Model/Lisence.cs` prototype, or the `Repository/` management interfaces, since the core does not use them.
