# Contact book model

A Dafny model of the in-memory contact book in `main.py`: a `Phone` field that
accepts only ten-digit strings, a `Record` that holds a contact's name and an
ordered, mutable list of phones, and an `AddressBook` that maps a contact's name
to its record.

- `wrappers.dfy` (module `Wrappers`): `Option`, `Result` and `Outcome`, standing for
  Python's `None`-or-object results and for a call that returns or raises.
- `fields.dfy` (module `Fields`): the `ValueError` the code raises, with its two
  messages, and the check the `Phone` constructor applies.
- `records.dfy` (module `Records`): the phone list as a value (first match, remove
  first, replace first, rendering), the lemmas about it, and the class `Record`,
  whose methods change `phones` in place and are proved against those functions.
- `address_book.dfy` (module `AddressBooks`): the class `AddressBook` over a
  `map<string, Record>` of references, and verified client code: `Scenario` and
  `EditScenario` follow the usage example in the comments at the end of `main.py`
  (John and Jane filed, John's first number edited, Jane deleted), and
  `ErrorScenario` exercises the error paths (a malformed number refused by
  `add_phone`, an absent one refused by `edit_phone`, a silent `remove_phone` of an
  absent number), each leaving the record unchanged.

A phone is kept as its value; its position in the record's list stands for the
`Phone` object, so `find_phone` returns that position. A raised `ValueError` is
returned as `Fail(ValueError(message))` with the source's message.

`edit_phone` assigns the new value without running the `Phone` check, so the model
does not claim that every phone of a record is always well formed. It proves
instead that `add_phone`, `remove_phone` and the validated edit keep a record's
phones well formed, and that `edit_phone` as written keeps them well formed when
the new number is well formed; `Records.UncheckedEditAdmitsInvalid` shows that a
malformed new number can break it.

Behaviour of `main.py` worth noting:

- `edit_phone` does not re-validate the new number (see Findings).
- Both failures raise `ValueError`, told apart only by the message: "Invalid phone number" from the `Phone` check, "Phone number not found" from `edit_phone`.
- A record renders as one line: `Contact name: <name>, phones: <p1>; <p2>`.
- After an edit the old number is no longer found only when it occurred once: `Records.EditLeavesLaterDuplicate` shows a later duplicate still being found.
- `main.py` has no birthdays, paginated iteration, search or file persistence, so the model has none.

## Model

| member | source | states |
|---|---|---|
| `Fields.NewPhone` | main.py:13-17 | constructing a Phone succeeds exactly for ten-digit strings and keeps the value unchanged; any other string raises ValueError("Invalid phone number") |
| `Fields.PhoneCheckIsTenDigits` | main.py:15 | the source's test (`isdigit()` and length 10) accepts exactly the strings of ten characters '0'..'9' |
| `Records.FirstIndex` | main.py:40-41 | the first-match position: absent exactly when no phone equals the number; otherwise the phone there equals it and no earlier phone does |
| `Records.RemoveFirst` | main.py:27-31 | removing drops exactly one occurrence of the number when present (length one less, multiset minus that number) and keeps the length otherwise |
| `Records.RemoveFirstAt` | main.py:27-31 | removing deletes the element at the first match only; the phones before and after it keep their order |
| `Records.RemoveFirstAbsent` | main.py:27-31 | removing a number that is not in the list leaves the list unchanged |
| `Records.ReplaceFirst` | main.py:33-38 | an edit keeps the length; with the old number absent it changes nothing; otherwise it swaps one occurrence of the old number for the new one |
| `Records.ReplaceFirstAt` | main.py:33-36 | an edit rewrites exactly the position of the first match and no other position |
| `Records.ReplaceFirstThenFind` | main.py:33-41 | after an edit the new number is found; the old one is gone when it occurred once and differs from the new one; a new number not present before is found at the edited position |
| `Records.EditLeavesLaterDuplicate` | main.py:33-41 | with the number present twice, after editing the first one the second is still found, at position 1 |
| `Records.RemoveFirstKeepsValid` | main.py:27-31 | removing a phone keeps a list of well-formed phones well formed |
| `Records.ReplaceFirstKeepsValid` | main.py:33-36 | editing with a well-formed number keeps a list of well-formed phones well formed |
| `Records.UncheckedEditAdmitsInvalid` | main.py:36 | an edit without the Phone check turns a well-formed list into one holding a malformed number |
| `Records.JoinPhones` | main.py:44 | the "; "-joined text has length equal to the phones' total length plus 2 per neighbouring pair, and a single phone is rendered as itself |
| `Records.JoinPhonesAppend` | main.py:44 | for phones of any length, joining one more phone appends "; " and that phone, so the joined text lists the phones in order |
| `Records.JoinedPhoneAt` | main.py:44 | in the "; "-joined text of ten-digit phones, phone k is the ten characters from 12k on, followed by "; " unless it is the last, and the text has length 12n-2 |
| `Records.Record.constructor` | main.py:20-22 | a new record has the given name and no phones |
| `Records.Record.AddPhone` | main.py:24-25 | a valid number is appended last with earlier phones unchanged; an invalid one raises ValueError and leaves the list as it was; well-formedness is kept |
| `Records.Record.RemovePhone` | main.py:27-31 | the list becomes the old list without its first occurrence of the number, with no error when absent; well-formedness is kept |
| `Records.Record.EditPhone` | main.py:33-38 | the first occurrence of the old number is rewritten to the new one unchecked; when absent, ValueError("Phone number not found") and no change; well-formedness is kept when the new number is well formed |
| `Records.Record.EditPhoneValidated` | main.py:33-38 | as EditPhone, but a malformed new number raises ValueError("Invalid phone number") and changes nothing, so the phones always stay well formed |
| `Records.Record.FindPhone` | main.py:40-41 | returns the position of the first phone equal to the number, None exactly when there is none; reads the record without changing it |
| `Records.Record.ToString` | main.py:43-44 | the line starts with "Contact name: ", the name and ", phones: ", and the rest is the "; "-joined phones for any phone list, malformed numbers included (empty when there are none); with ten-digit phones each phone can be read back at its offset, in order, with "; " between consecutive phones, and the length is fixed |
| `AddressBooks.AddressBook.constructor` | main.py:46 | a new book is empty |
| `AddressBooks.AddressBook.Find` | main.py:54-55 | returns the record filed under the name, None exactly when there is none; in a well-formed book that record carries the name |
| `AddressBooks.AddressBook.AddRecord` | main.py:47-48 | the record is then found under its name, replacing any earlier one; every other name finds what it found before; size grows by one only for a new name |
| `AddressBooks.AddressBook.Delete` | main.py:50-52 | the name is then not found; every other name finds what it found before; size drops by one only when the name was present, and otherwise nothing changes |
| `AddressBooks.RecordWithPhones` | main.py:59-66 | records built by successive add_phone calls hold exactly the added phones, in order |
| `AddressBooks.EditScenario` | main.py:71-76 | editing "1234567890" to "1112223333" in ["1234567890", "5555555555"] gives ["1112223333", "5555555555"], and "5555555555" is found at position 1 |

## Left out

- Non-string arguments: the model's arguments are strings, so the `isinstance(value, str)` part of the Phone check (main.py:15) always holds, and an edit cannot store a non-string value.
- Unicode digits: Python's `str.isdigit` also accepts non-ASCII digit characters; the model accepts only '0'..'9'.
- Object identity: `list.remove` at main.py:30 finds the Phone object by identity; each Phone is created by `add_phone` and sits once in its list, so the model deletes the element at the index of the first value match.
- Phone objects held by callers: `find_phone` returns the Phone object itself, so a caller could change its value later; the model returns its position and does not model outside changes to it.
- Reassigning a record's name: the core never does it, so `Record.name` is a constant; a caller that renamed a record would break the "filed under its own name" invariant of the book.
- The `Field` and `Name` classes are kept as plain strings; `Field.__str__` returns the value itself.
- The generic mapping interface that `AddressBook` inherits from `UserDict` is library behaviour and is not modelled; only `add_record`, `delete` and `find` are.
- The commented-out demonstration at the end of main.py is not code; it is used only as the scenario in `AddressBooks.Scenario` and `AddressBooks.EditScenario`.

## Findings

| source | as written | input that shows it | evidently intended | confidence | as-written member | corrected member |
|---|---|---|---|---|---|---|
| main.py:33-36 | `edit_phone` assigns `phone.value = new_phone_number` without the Phone check | a record with phones ["1234567890"], edited from "1234567890" to "12345", then holds the malformed "12345" | the new number is checked like any Phone value and a malformed one raises ValueError("Invalid phone number") | medium, not executed | `Records.UncheckedEditAdmitsInvalid` | `Records.Record.EditPhoneValidated` |
