# Customer persistence core, in Dafny

This project models the persistence path of a small customer manager:

- the `Customer` entity. It has three concrete classes (regular, premium, corporate), setters that check their argument, a flat dictionary encoding, equality by id and a display string;
- the three field checks of `DataValidator`, for email, phone and name;
- `JSONRepository`, which keeps every customer as a flat record in one JSON file. It offers `save` (an upsert by id that rewrites the whole file), `get_all` (which turns every record back into a customer by its `type` tag) and `find_by_id`.

Files and modules:

- `records.dfy` (`Records`): the flat record, a map from field name to a scalar JSON value.
- `errors.dfy` (`Errors`): the error kinds the core raises, with `Result`, `Option` and `Outcome` in place of exceptions.
- `validators.dfy` (`Validators`): `validate_email`, `validate_phone` and `validate_name` as pure functions. The two regular expressions are written as character-class predicates. Each has an independent definition of its language, and the two are proved to agree. Python's `re.match` with a `$` anchor is modelled exactly, including the way `$` also matches before one final newline. `str.strip()` removes exactly the characters of `str.isspace()`.
- `models.dfy` (`Models`): the three classes as the datatype `Variant`, the field values of one object as `CustomerValue` (with `to_dict`, `__eq__` and `__str__`), and the mutable object as the class `Customer`. Its `id` is a `const`: the property has a getter and no setter.
- `repository.dfy` (`Repository`): the file as a `FileState` that is absent, corrupt, unreadable or a stored list of records. The functions that state what the operations compute are `ReadRecords`, `Decode`, `DecodeAll`, `FindSlot`, `Upsert` and `FindFirst`. The class `JsonRepository` holds the file content in a field, and its `Save`, `GetAll` and `FindById` keep the source's loops. Each loop is proved against those functions.

Facts about the program that shape the model:

- `to_dict` (core/models.py:58-66) writes only `id`, `name`, `email`, `phone` and `type`. No subclass override is part of this model, so `save` stores this base dictionary. `ToDictRoundTrip` proves what reading it back gives:
  - a regular customer comes back exactly;
  - a premium customer comes back with 0 points, because `item.get('loyalty_points', 0)` finds no key (data/repository.py:72);
  - a corporate customer cannot be read back, because `item['company_name']` raises `KeyError` (data/repository.py:74-75).
- `ExtendedDictRoundTrip` proves that the base dictionary plus the keys `get_all` reads for the class comes back exactly.
- `get_all` raises `ValueError` on an unknown or missing `type` and returns no partial list (data/repository.py:76-77). The first record that cannot be read back makes the whole listing fail.

## Model

| member | source | states |
|---|---|---|
| Validators.ValidateEmail | core/validators.py:14-21 | accepted exactly when the input is in the EMAIL_REGEX language, possibly followed by one newline; otherwise InvalidEmail(input); an accepted email is returned lower-cased, without the newline, and still in the language |
| Validators.MatchesEmailIffShape | core/validators.py:8 | the first-`@`/last-`.` matcher accepts exactly the concatenation language local-part `@` domain `.` two-or-more letters |
| Validators.EmailRegexMatchesIffShape | core/validators.py:19 | `re.match` with `$` accepts the language and the language followed by one final newline, and nothing else |
| Validators.EmailSplitPieces | core/validators.py:8 | in a split email no `@` occurs except the separator, and no `.` occurs after the last dot |
| Validators.EmailSplitTrimmed | core/validators.py:8 | a string of the email language is non-empty and has no whitespace at either end |
| Validators.LowerKeepsEmailShape | core/validators.py:21 | lower-casing maps the email language into itself at the same split points |
| Validators.AcceptedEmailCore | core/validators.py:19-21 | strip of an accepted email is the matched text (the final newline removed), and its lower-case form is in the language |
| Validators.AcceptedEmailHasOneAt | core/validators.py:8 | an accepted email holds exactly one `@`, not at its start |
| Validators.ShapeHasOneAt | core/validators.py:8 | a string of the EMAIL_REGEX language holds exactly one `@`, not at its start |
| Validators.ValidateEmailIdempotent | core/validators.py:19-21 | validating an accepted email again returns it unchanged |
| Validators.ValidatePhone | core/validators.py:24-31 | accepted exactly when the input is an optional `+`, a digit 1-9, then 8 to 14 digits, possibly followed by one newline; otherwise InvalidPhone(input); returned without the newline |
| Validators.ValidatePhoneIdempotent | core/validators.py:29-31 | validating an accepted phone again returns it unchanged |
| Validators.ValidateName | core/validators.py:34-40 | fails with ValidationError exactly when the stripped name has fewer than 2 characters (the empty name included); otherwise returns the stripped name, of length at least 2 and with no surrounding whitespace |
| Validators.ValidateNameIdempotent | core/validators.py:38-40 | validating an accepted name again returns it unchanged |
| Validators.Strip | core/validators.py:40 | `strip()` returns an infix of its input that has no whitespace at either end; everything before it and everything after it is whitespace, so only the leading and trailing whitespace is removed |
| Validators.StripStart | core/validators.py:40 | the leading part `strip()` removes is all whitespace and what remains is a suffix not starting with whitespace |
| Validators.StripEnd | core/validators.py:40 | the trailing part `strip()` removes is all whitespace and what remains is a prefix not ending with whitespace |
| Validators.StripTrimmed | core/validators.py:40 | a string with no surrounding whitespace is its own strip |
| Validators.StripIdempotent | core/validators.py:40 | stripping twice is stripping once |
| Validators.StripDropsFinalNewline | core/validators.py:31 | strip removes a final newline after a trimmed non-empty string |
| Validators.StripCore | core/validators.py:21 | stripping a matched string, or a matched string and its final newline, gives the matched string |
| Validators.Lower | core/validators.py:21 | `lower()` keeps the length, lower-cases each letter, keeps every other character and leaves no upper-case letter |
| Validators.LowerNoUpper | core/validators.py:21 | lower-casing text without upper-case letters changes nothing |
| Validators.MatchesEmail | core/validators.py:8 | every string the first-`@`/last-`.` matcher accepts is in the EMAIL_REGEX language |
| Validators.MatchesPhone | core/validators.py:11 | the matcher accepts exactly the PHONE_REGEX language over ASCII digits: an optional `+`, a digit 1-9, then 8 to 14 digits |
| Validators.EmailRegexMatches | core/validators.py:19 | a string `re.match(EMAIL_REGEX, …)` accepts is in the language, or is in it once its final newline is dropped |
| Validators.PhoneRegexMatches | core/validators.py:29 | `re.match(PHONE_REGEX, …)` accepts exactly the language (over ASCII digits) and the language followed by one final newline |
| Validators.FirstIndexOf | core/validators.py:8 | the index of the first occurrence of a character, or None when it does not occur |
| Validators.LastIndexOf | core/validators.py:8 | the index of the last occurrence of a character, or None when it does not occur |
| Models.CustomerValue.ToDict | core/models.py:58-66 | the dictionary has exactly the keys id, name, email, phone, type, holding the current fields and the class name |
| Models.CustomerValue.Equals | core/models.py:72-76 | a non-Customer is never equal; a Customer of any class is equal exactly when the ids are equal |
| Models.EqualsIsIdentity | core/models.py:72-76 | equality is reflexive, symmetric and transitive, and changing any field other than the id changes no comparison |
| Models.ClassName | core/models.py:65 | `__class__.__name__`: each of the three names `RegularCustomer`, `PremiumCustomer`, `CorporateCustomer` belongs to exactly one class |
| Models.CustomerValue.ToString | core/models.py:68-70 | the string is `[<ClassName>]`, a space, the name, a space, `(<email>)`, and nothing else |
| Models.ToStringShowsClass | core/models.py:68-70 | customers of different classes never render the same string |
| Models.Customer.constructor | core/models.py:4-8 | the object holds exactly the given id, name, email, phone and class fields, unchecked |
| Models.Customer.SetName | core/models.py:19-24 | an empty name fails with ValueError and changes nothing; any other name replaces the name and nothing else |
| Models.Customer.SetEmail | core/models.py:30-33 | any email replaces the email and nothing else |
| Models.Customer.SetPhone | core/models.py:39-44 | an empty phone fails with ValueError and changes nothing; any other phone replaces the phone and nothing else |
| Repository.ReadRecords | data/repository.py:27-33 | an absent or malformed file reads as the empty list, a stored list reads as itself, and only an unreadable file is an error |
| Repository.JsonRepository.constructor | data/repository.py:21-25 | a missing file is created holding the empty list at once; an existing file is left as it is |
| Repository.JsonRepository.ReadFile | data/repository.py:27-33 | returns what ReadRecords says of the current file |
| Repository.JsonRepository.WriteToFile | data/repository.py:35-38 | the file afterwards holds exactly the given list |
| Repository.OpenMissingAndList | data/repository.py:21-25 | opening a repository on a missing path and listing at once gives the empty list |
| Repository.ListingOfUnparsedFile | data/repository.py:27-33 | listing an absent or malformed file gives the empty list; an unreadable file gives the read error |
| Repository.TypeTag | data/repository.py:68 | `item.get('type')`: the stored tag, or None when the record has no `type` |
| Repository.KindOfTag | data/repository.py:69-77 | a tag selects a class exactly when it is one of the three class-name strings |
| Repository.DecodeVariant | data/repository.py:70-75 | a success builds a customer of the selected class; a regular one adds nothing; a premium one without `loyalty_points` gets 0; a corporate one without `company_name` raises KeyError for it, and a corporate success has all three subclass keys |
| Repository.GetString | data/repository.py:70 | `item[key]` yields the stored string, and a missing key raises KeyError for that key |
| Repository.GetLoyaltyPoints | data/repository.py:72 | a missing `loyalty_points` reads as 0; a present one reads as its value |
| Repository.Decode | data/repository.py:66-77 | an unknown or missing tag raises the unknown-type error; a known tag whose required keys are not all present fails; a success is a faithful record of the result |
| Repository.DecodeIffDescribes | data/repository.py:66-77 | a record turns back into a customer exactly when it is a faithful record of that customer (tag, base fields, subclass fields, 0 points by default) |
| Repository.DecodedId | data/repository.py:70-75 | a record that turns back into a customer carries that customer's id |
| Repository.DispatchTagsAreClassNames | data/repository.py:68-77 | the tags get_all dispatches on are exactly the class names to_dict writes, each to its own class |
| Repository.ToDictRoundTrip | data/repository.py:68-75 | the base dictionary of a regular customer reads back exactly; a premium one reads back with 0 points; a corporate one fails with KeyError company_name; a success equals the original under `__eq__` |
| Repository.ExtendedDictRoundTrip | data/repository.py:70-75 | the base dictionary plus the subclass keys get_all reads reads back as exactly the original customer |
| Repository.Listing | data/repository.py:61-82 | `get_all` over the file: an unreadable file is the read error, an absent or malformed file lists as empty, and the listing succeeds exactly when the file is readable and every stored record reads back |
| Repository.Collect | data/repository.py:66-80 | the loop's way of failing: collecting step results in order succeeds exactly when every step does, and then holds every value in order |
| Repository.CollectFirstError | data/repository.py:66-80 | a failing collection carries the error of its first failing step |
| Repository.CollectFailsAt | data/repository.py:66-80 | a failing step after succeeding ones makes the whole collection fail with its error |
| Repository.DecodeAll | data/repository.py:64-82 | the listing succeeds exactly when every record reads back, and then it holds one customer per record, in stored order |
| Repository.DecodeAllFirstError | data/repository.py:76-77 | a failing listing fails with the error of the first record that cannot be read back |
| Repository.DecodeAllFailsAt | data/repository.py:66-80 | a record that cannot be read back after records that can makes the whole listing fail with its error, with no partial list |
| Repository.DecodeAllExtends | data/repository.py:79-80 | listing one more record appends what that record reads back into |
| Repository.JsonRepository.GetAll | data/repository.py:61-82 | the loop returns exactly the listing of the current file: the read error, the first decoding error, or every record read back in order |
| Repository.FindSlot | data/repository.py:49-53 | the scan finds the first record whose id equals the customer's, or none; a record without an id met before any match raises KeyError |
| Repository.SlotIsFirstMatch | data/repository.py:49-53 | the scan stops at the first record with the id |
| Repository.SlotFailsAt | data/repository.py:49-50 | the scan fails on a record without an id that comes before any match |
| Repository.Upsert | data/repository.py:47-57 | the list `save` writes: it fails exactly when the scan fails; on success it holds the new dictionary, is at most one longer, and keeps every record without the saved id at its index |
| Repository.Saved | data/repository.py:40-59 | `save` over the file: an unreadable file is the read error, and an absent or malformed file becomes the one-record list of the customer's dictionary |
| Repository.UpsertNewId | data/repository.py:55-57 | saving an id no record carries appends the dictionary: the old list followed by it, one longer |
| Repository.UpsertExistingId | data/repository.py:49-53 | saving a stored id replaces only the first record with that id, at its index; length and other records unchanged |
| Repository.UpsertFailsOnMissingId | data/repository.py:49-50 | saving fails, with KeyError id, exactly when a record without an id comes before any match |
| Repository.UpsertKeepsIdsUnique | data/repository.py:40-59 | unique ids stay unique, and afterwards exactly one record carries the saved id |
| Repository.UpsertIdempotent | data/repository.py:40-59 | saving the same record twice gives the same list as saving it once |
| Repository.JsonRepository.Save | data/repository.py:40-59 | on success the file holds the upserted list; on a read error or KeyError the file is unchanged and the error is returned |
| Repository.FindFirst | data/repository.py:87-90 | None exactly when no customer has the id; otherwise the first customer with the id |
| Repository.FindFirstAt | data/repository.py:87-89 | the loop returns the customer at the first index whose id matches |
| Repository.JsonRepository.FindById | data/repository.py:84-90 | the first listed customer with the id, None when there is none; only a failing listing is an error |
| Repository.FindAfterUpsert | data/repository.py:84-90 | after a save, looking up the saved id finds what the saved dictionary reads back into (for a regular customer, the customer itself) whenever the file can be listed |

## Left out

- The `CustomerRepository` interface (data/repository.py:7-18) is an abstract base class. `JsonRepository` carries its three operations directly, because the model has no abstract classes.
- The bodies of `RegularCustomer`, `PremiumCustomer` and `CorporateCustomer` are not part of this model. The model does not have their `get_details`, their `calculate_value`, any `to_dict` override, or the corporate `seniority` argument, which `get_all` never reads back. Their class fields are fixed at construction.
- GetString, GetLoyaltyPoints: a stored value of another JSON type (a number where a string is read, say) gives the model's `WrongType` error. Python would build the object holding that value.
- Repository.Decode, Repository.JsonRepository.GetAll, Repository.JsonRepository.FindById: these return the field values of the customers that `get_all` builds, not fresh objects, so object identity is not modelled.
- JSON numbers with a fraction or an exponent (a stored `"loyalty_points": 150.0`, say) are not modelled: a stored value is a string, an integer, a boolean or null.
- The JSON text (`json.load`, `json.dump`, `indent=4`) and file handles are not modelled. A file is absent, corrupt, unreadable or a stored list of flat records. Valid JSON that is not a list of flat objects is not modelled. Nested values inside a record are not modelled either.
- Repository.JsonRepository.WriteToFile: a failing write is not modelled. The file path is not modelled.
- Models.Customer.SetName, Models.Customer.SetPhone: Python's `not value` also rejects `None`. The model's values are strings, so only the empty string is rejected.
- Models.CustomerValue.Equals: the other operand is a Customer or "any other object". Hashing is not modelled, because no `__hash__` is defined.
- Validators.ValidatePhone, Validators.MatchesPhone, Validators.PhoneRegexMatches: Python's `\d` also matches non-ASCII decimal digits (Arabic-Indic digits, say). The model accepts only `0`-`9` after the first digit, so it rejects some phones Python accepts.
- Validators.Lower: only ASCII letters are lower-cased. This is exact, because an accepted email contains only ASCII characters once stripped.
- The demonstration script (main.py), the migration script (migrate_data.py), the logging set-up (utils/logger.py), the message formatting of the exception classes and the relational store are not part of this model.
