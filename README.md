# Contact directory model

A Dafny model of the in-memory core of a command-line contact directory (`main.py`). The core has three layers.

- **Validated value wrappers.** `Field` holds a value and compares by it. `Name` rejects names that are blank once stripped. `Phone` accepts exactly ten digits. `Birthday` parses `DD.MM.YYYY` into a calendar date and renders it back in the same form.
- **`Record`.** A contact: a name, an ordered phone list that is changed in place (append, remove every match, edit the first match, find the first match), and an optional birthday that each set overwrites. A record renders itself as one line of text.
- **`AddressBook`.** A dictionary from names to records that keeps insertion order. Names are unique. Deleting a missing name fails. `get_upcoming_birthdays` projects every birthday onto this year, or onto next year when it has passed. It keeps those 0 to `days` days ahead and moves a Saturday or Sunday to the following Monday.

Files:

- `wrappers.dfy`: `Option`, `Result`, `Outcome` (pass or fail with no value), and the two exception kinds (`ValueError`, `KeyError`) with their messages.
- `calendar.dfy`: the part of Python's `datetime.date` that the directory uses. It covers:
  - validity, and the day number (`toordinal`) in closed form;
  - the weekday, with Monday = 0;
  - comparison, `date + timedelta`, and `replace(year=...)`;
  - the `%d.%m.%Y` text form for `strptime` and `strftime`.
- `fields.dfy`: the field kinds, `Field.__eq__`, the three validating constructors and `__str__`.
- `records.dfy`: `class Record`, with the phone list as a `seq<Field>` field that the methods reassign, and the record's rendering.
- `address_book.dfy`: `class AddressBook` and the upcoming-birthday query.
  - The book is a `map` from names to `Record` objects, plus the names in insertion order, which is the order a Python `dict` iterates.
  - The query's loop is proved against `Upcoming`, a recursive definition over the records in order. `Selected` is an independent definition that lists the positions of the qualifying records.

Behaviour of the code worth knowing:

- **Equality.** `Field.__eq__` compares only the wrapped values (main.py:16-17). So a `Name` and a `Phone` holding the same text are equal. `Fields.EqualsPhone` states this.
- **February 29.** A February-29 birthday projected onto a year without that day makes `date.replace` raise (main.py:131, 134). The exception is not caught, so the whole `get_upcoming_birthdays` call fails. The model returns the first such error as a `Failure`. `UpcomingFailsIff` characterises exactly when that happens.
- **Year 9999.** A birthday that has already passed in year 9999 also raises, because year 10000 is out of range.

## Model

| member | source | states |
|---|---|---|
| Fields.EqualsIsEquivalence | main.py:13-18 | field equality is reflexive, symmetric and transitive |
| Fields.EqualsPhone | main.py:13-18 | a phone equals exactly the fields whose text value is the same digits, of any kind, and never a birthday; in particular `Phone(s) == Name(s)` |
| Fields.Name | main.py:32-35 | succeeds iff some character is not whitespace; keeps the value unstripped; otherwise `ValueError("Name field cannot be empty.")` |
| Fields.StripEmptyIffBlank | main.py:33 | `s.strip()` is empty exactly when every character of `s` is whitespace |
| Fields.Phone | main.py:39-42 | succeeds iff the value is ten characters, all digits; the stored value is the input; otherwise `ValueError("Phone number must consist of 10 digits.")` |
| Fields.Birthday | main.py:46-51 | succeeds iff the text parses as a valid `DD.MM.YYYY` date; a parsed birthday renders back to the same text; otherwise `ValueError("Invalid date format. Use DD.MM.YYYY")` |
| Fields.BirthdayRoundTrip | main.py:46-55 | `Birthday(str(b))` gives back the same birthday for every valid date |
| Calendar.ParseDate | main.py:48 | `strptime` succeeds iff the text has the `DD.MM.YYYY` shape and spells a real date; the date it returns formats back to the input |
| Calendar.FormatDate | main.py:55 | `strftime("%d.%m.%Y")` is ten characters with dots at positions 2 and 5 |
| Calendar.ParseFormat | main.py:48-55 | formatting a valid date and parsing the text gives the same date |
| Calendar.DaysInMonth | main.py:131 | month lengths are 28 to 31 days, and 29 exactly for February of a leap year |
| Calendar.ReplaceYear | main.py:131-134 | `replace(year=y)` succeeds iff `y` is in 1..9999 and the day exists in that month of `y`; the year error is checked first, then the day error, each with its message |
| Calendar.OrdinalOrder | main.py:133 | `a < b` on dates holds iff the day number of `a` is smaller; equal dates are those with equal day numbers |
| Calendar.Weekday | main.py:138 | `weekday()` is in 0..6 |
| Calendar.NextDay | main.py:140 | the next calendar day is valid and has the next day number |
| Calendar.AddDays | main.py:140 | `d + timedelta(days=n)` is valid and its day number is `n` more |
| Calendar.MaxDateIsFriday | main.py:138-140 | 9999-12-31 is a Friday, so no weekend date needs a later Monday |
| Records.Record.constructor | main.py:62-65 | a new record has the given name, no phones and no birthday |
| Records.NewRecord | main.py:62-65 | `Record(name)` fails exactly as `Name` does; otherwise it is a fresh valid record with no phones and no birthday |
| Records.Record.AddPhone | main.py:67-68 | passes iff the number is valid, and then appends exactly that phone at the end, with no duplicate check; on failure the list is unchanged; the birthday is untouched |
| Records.Record.RemovePhone | main.py:70-72 | the new list is the old list without the entries that have that value; the birthday is untouched; no error is possible |
| Records.Without | main.py:72 | no remaining entry has the removed value |
| Records.WithoutAbsent | main.py:71-72 | removing a value nobody has leaves the list unchanged |
| Records.WithoutCounts | main.py:72 | every other value keeps its number of occurrences, and the removed value has none |
| Records.WithoutConcat | main.py:72 | removal works piece by piece, so the survivors keep their relative order |
| Records.IndexOf | main.py:78 | `list.index` finds the first position holding an equal field, and none exists iff no entry is equal |
| Records.Record.EditPhone | main.py:74-81 | passes iff both numbers are valid and the old one is present; then only the first equal entry changes, to the new phone; every failure leaves the list unchanged and carries "Old phone number not found." |
| Records.Record.FindPhone | main.py:83-88 | returns the first entry whose value matches, or `None` iff no entry matches |
| Records.Record.AddBirthday | main.py:90-91 | passes iff the text parses, and then replaces the birthday with the parsed date; a bad date keeps the old birthday; phones untouched |
| Records.RenderContactLayout | main.py:94-97 | the rendering starts with `Contact name: <name>, Phones: `, and its length is that prefix, the joined phones, and 22 more when a birthday is set |
| Records.RenderContactPhones | main.py:95-97 | phone `k` appears in the rendering at offset 12·k after the prefix |
| Records.RenderContactBirthday | main.py:96-97 | a set birthday appears last, as text that `Birthday` parses back to the same field |
| Records.JoinedPhonesAt | main.py:95 | ten-digit phones joined by `"; "` take 12·n − 2 characters, and phone `k` sits at offset 12·k |
| Records.JoinAppend | main.py:147 | joining one more part adds the separator and that part at the end |
| Records.RenderExample | main.py:94-97 | a contact with one phone and no birthday renders as `Contact name: Alice, Phones: 0501234567` |
| AddressBooks.AddressBook.constructor | main.py:109 | a new book is empty |
| AddressBooks.AddressBook.Find | main.py:116-117 | returns a record iff the name is present, and the record is the one filed under that name |
| AddressBooks.AddressBook.AddRecord | main.py:111-114 | passes iff the name is new; then the record is filed under its name, is the last in order, and `find` returns it; `str(book)` becomes the record's own line for an empty book, and otherwise the old text plus a newline and that line; a duplicate leaves the book unchanged with "Record with this name already exists." |
| AddressBooks.AddressBook.Delete | main.py:119-123 | passes iff the name is present; then only that entry goes, the other names keep their order, and `find` returns `None`; a missing name leaves the book unchanged with `KeyError("Record not found.")` |
| AddressBooks.Erase | main.py:121 | deleting a key keeps every other key and no copy of it, and keeps distinct keys distinct |
| AddressBooks.EraseAbsent | main.py:121 | erasing a key that is not there changes nothing |
| AddressBooks.EraseKeepsOrder | main.py:121 | erasing a key found only at position `i` leaves exactly the keys before and after it, in their order, as a `dict` does |
| AddressBooks.AddressBook.Cards | main.py:128 | the records are visited in insertion order, one per name |
| AddressBooks.Project | main.py:131-134 | the projection fails exactly in the two `replace` failure cases; otherwise it keeps the month and day, takes this year unless that date has passed and next year if it has, and is never before today |
| AddressBooks.Congratulation | main.py:138-142 | a weekday date is kept; a Saturday gains two days and a Sunday one, landing on a Monday; the result is always Monday to Friday |
| AddressBooks.WeekdayAfter | main.py:138-140 | moving `n` days on moves the weekday `n` places round the week |
| AddressBooks.WeekendShiftInRange | main.py:139-140 | moving a weekend date to Monday never passes the last representable date |
| AddressBooks.Consider | main.py:130-143 | one pass of the loop yields the greeting, the skip, or the error that the record-by-record definition gives |
| AddressBooks.AddressBook.GetUpcomingBirthdays | main.py:125-144 | the loop returns exactly the greetings, or the first error, of the record-by-record definition over the records in insertion order; `days` defaults to 7 |
| AddressBooks.UpcomingStep | main.py:128-143 | each record extends the result of the records before it by its greeting, by nothing, or by its error |
| AddressBooks.UpcomingKeepsFirstError | main.py:131-134 | once a record raises, the whole query raises that same error |
| AddressBooks.UpcomingFailsIff | main.py:130-134 | the query fails iff some record has a birthday whose projection raises |
| AddressBooks.UpcomingIsSelected | main.py:125-144 | on success there is one greeting per qualifying record, in record order, each with that record's name and congratulation date, and nothing else |
| AddressBooks.SelectedQualify | main.py:130-136 | every selected record has a birthday, projects without error, and falls 0 to `days` days from today |
| AddressBooks.SelectedIncreasing | main.py:128 | the selected positions strictly increase, so each record appears at most once |
| AddressBooks.SelectedComplete | main.py:130-136 | every record with a birthday in the window is selected |
| AddressBooks.UpcomingNamesDistinct | main.py:143 | no two greetings carry the same name |
| AddressBooks.RenderKeysAppend | main.py:146-147 | with one more key filed last under a new name, the record lines are the old lines plus that record's line |
| AddressBooks.RenderKeysUnaffected | main.py:146-147 | filing a record under a new key changes none of the other keys' lines |
| AddressBooks.BobGreeting | main.py:136-143 | a Tuesday birthday two days ahead is congratulated on the day |
| AddressBooks.CarlGreeting | main.py:138-142 | a Saturday birthday is congratulated on the Monday after |
| AddressBooks.WeekendExample | main.py:125-144 | from Sunday 10.03.2024 with a 7-day window, two records give `12.03.2024` and `18.03.2024`, in record order |
| AddressBooks.YearEndExample | main.py:131-134 | on 31.12.2024 a first-of-January birthday has passed, and is projected onto 01.01.2025 |

## Left out

- The interactive loop, `parse_input`, the `input_error_*` decorators and the command handlers (main.py:149-300). They are console I/O and turn exceptions into text.
- Saving and loading with `pickle`, and the `__getstate__`/`__setstate__` hooks (main.py:21-26, 100-105, 302-313). They are file persistence.
- `date.today()` (main.py:127). The current date is a parameter `today` of the query.
- `__repr__` (main.py:57-58). It is not used by the core.
- `Field.__str__` (main.py:10-11). It is modelled only through the renderings that use it.
- `Field.__eq__` against an object that is not a `Field` (main.py:18). Only fields are compared.
- Fields.Birthday: accepts only the zero-padded `DD.MM.YYYY` form. `strptime` also accepts one-digit days and months, leading spaces and non-ASCII digits, which the model rejects.
- Fields.Phone: counts only ASCII `0`-`9` as digits. `str.isdigit` also accepts other Unicode digits.
- Calendar.FormatDate: always writes four year digits. `strftime("%Y")` on glibc writes years below 1000 without padding, so birthdays before year 1000 render differently.
- Calendar.ReplaceYear: the error messages are CPython's usual wording for `date.replace`. The exact text can differ between Python versions.
