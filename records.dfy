/** A contact: a validated name, an ordered list of validated phones and an
    optional birthday, with the operations that change the phones and the
    birthday in place. */
module Records {
  import opened Wrappers
  import opened Calendar
  import opened Fields

  /** The phone list with every entry whose value is `phone` taken out, the
      rest kept in order (`[p for p in phones if p.value != phone]`). */
  function Without(phones: seq<Field>, phone: string): (r: seq<Field>)
    ensures forall i | 0 <= i < |r| :: !HasValue(r[i], phone)
    decreases |phones|
  {
    if phones == [] then []
    else
      (if HasValue(phones[0], phone) then [] else [phones[0]]) + Without(phones[1..], phone)
  }

  /** Removing a value that no entry has leaves the list as it was. */
  lemma {:induction false} WithoutAbsent(phones: seq<Field>, phone: string)
    requires forall i | 0 <= i < |phones| :: !HasValue(phones[i], phone)
    ensures Without(phones, phone) == phones
    decreases |phones|
  {
    if phones != [] {
      assert !HasValue(phones[0], phone);
      WithoutAbsent(phones[1..], phone);
      assert phones == [phones[0]] + phones[1..];
    }
  }

  /** Removal keeps every entry with another value as often as it occurred,
      and no entry with that value. */
  lemma {:induction false} WithoutCounts(phones: seq<Field>, phone: string, f: Field)
    ensures multiset(Without(phones, phone))[f] == if HasValue(f, phone) then 0 else multiset(phones)[f]
    decreases |phones|
  {
    if phones != [] {
      WithoutCounts(phones[1..], phone, f);
      assert phones == [phones[0]] + phones[1..];
    }
  }

  /** Removal works piece by piece, so it keeps the relative order of the
      entries it leaves. */
  lemma {:induction false} WithoutConcat(s: seq<Field>, t: seq<Field>, phone: string)
    ensures Without(s + t, phone) == Without(s, phone) + Without(t, phone)
    decreases |s|
  {
    if s == [] {
      assert s + t == t;
    } else {
      var st := s + t;
      assert st[0] == s[0] && st[1..] == s[1..] + t;
      WithoutConcat(s[1..], t, phone);
      var h := if HasValue(s[0], phone) then [] else [s[0]];
      assert Without(st, phone) == h + Without(st[1..], phone);
      assert Without(s, phone) == h + Without(s[1..], phone);
    }
  }

  /** `list.index(x)`: the first position holding a field equal to `x`. */
  function IndexOf(s: seq<Field>, x: Field): (r: Option<nat>)
    ensures r.Some? ==> r.value < |s| && Equals(s[r.value], x)
    ensures r.Some? ==> forall j | 0 <= j < r.value :: !Equals(s[j], x)
    ensures r.None? <==> forall j | 0 <= j < |s| :: !Equals(s[j], x)
    decreases |s|
  {
    if s == [] then None
    else if Equals(s[0], x) then Some(0)
    else match IndexOf(s[1..], x)
      case None => None
      case Some(i) => Some(i + 1)
  }

  /** `sep.join(parts)` */
  function Join(parts: seq<string>, sep: string): string
    decreases |parts|
  {
    if parts == [] then ""
    else if |parts| == 1 then parts[0]
    else parts[0] + sep + Join(parts[1..], sep)
  }

  /** Joining one more part adds the separator and that part at the end. */
  lemma {:induction false} JoinAppend(parts: seq<string>, last: string, sep: string)
    ensures Join(parts + [last], sep) == if parts == [] then last else Join(parts, sep) + sep + last
    decreases |parts|
  {
    if |parts| > 1 {
      assert (parts + [last])[1..] == parts[1..] + [last];
      JoinAppend(parts[1..], last, sep);
    } else if |parts| == 1 {
      assert (parts + [last])[1..] == [last];
    }
  }

  /** The values of the phones, in order. */
  function PhoneValues(phones: seq<Field>): (r: seq<string>)
    requires forall i | 0 <= i < |phones| :: phones[i].PhoneField?
    ensures |r| == |phones| && forall i | 0 <= i < |r| :: r[i] == phones[i].text
  {
    seq(|phones|, i requires 0 <= i < |phones| => phones[i].text)
  }

  /** Ten-digit phones joined with "; " sit at a fixed stride of twelve
      characters, so each one can be read back from the joined text. */
  lemma {:induction false} JoinedPhonesAt(ps: seq<string>)
    requires forall i | 0 <= i < |ps| :: IsPhoneNumber(ps[i])
    ensures |Join(ps, "; ")| == if ps == [] then 0 else 12 * |ps| - 2
    ensures forall k | 0 <= k < |ps| :: Join(ps, "; ")[12 * k .. 12 * k + 10] == ps[k]
    decreases |ps|
  {
    if |ps| > 1 {
      var rest := Join(ps[1..], "; ");
      JoinedPhonesAt(ps[1..]);
      var whole := ps[0] + "; " + rest;
      assert Join(ps, "; ") == whole;
      forall k | 0 <= k < |ps| ensures whole[12 * k .. 12 * k + 10] == ps[k] {
        if k > 0 {
          assert whole[12 * k .. 12 * k + 10] == rest[12 * (k - 1) .. 12 * (k - 1) + 10];
          assert ps[1..][k - 1] == ps[k];
        }
      }
    }
  }

  /** `Record.__str__` on the record's parts. */
  function RenderContact(name: string, phones: seq<Field>, birthday: Option<Field>): string
    requires forall i | 0 <= i < |phones| :: phones[i].PhoneField?
    requires birthday.Some? ==> birthday.value.BirthdayField? && ValidDate(birthday.value.date)
  {
    ContactHead(name) + Join(PhoneValues(phones), "; ") + BirthdaySuffix(birthday)
  }

  function ContactHead(name: string): string {
    "Contact name: " + name + ", Phones: "
  }

  /** The birthday part of `Record.__str__`, empty when there is none. */
  function BirthdaySuffix(birthday: Option<Field>): string
    requires birthday.Some? ==> birthday.value.BirthdayField? && ValidDate(birthday.value.date)
  {
    if birthday.Some? then ", Birthday: " + Render(birthday.value) else ""
  }

  /** The length of ten-digit phones joined with "; ". */
  function JoinedLength(count: nat): nat {
    if count == 0 then 0 else 12 * count - 2
  }

  /** The rendering starts with a fixed prefix and the name, and its length is
      that prefix, the joined phones and 22 characters for a birthday. */
  lemma RenderContactLayout(name: string, phones: seq<Field>, birthday: Option<Field>)
    requires forall i | 0 <= i < |phones| :: phones[i].PhoneField? && IsPhoneNumber(phones[i].text)
    requires birthday.Some? ==> birthday.value.BirthdayField? && ValidDate(birthday.value.date)
    ensures |RenderContact(name, phones, birthday)|
            == |ContactHead(name)| + JoinedLength(|phones|) + (if birthday.Some? then 22 else 0)
    ensures RenderContact(name, phones, birthday)[..|ContactHead(name)|] == ContactHead(name)
  {
    var head, rest := ContactHead(name), BirthdaySuffix(birthday);
    assert RenderContact(name, phones, birthday) == head + Join(PhoneValues(phones), "; ") + rest;
    PhonesShown(head, phones, rest);
    BirthdayShown(head, birthday);
  }

  /** Every phone shows in the rendering, in list order, at a fixed stride of
      twelve characters after the prefix. */
  lemma RenderContactPhones(name: string, phones: seq<Field>, birthday: Option<Field>)
    requires forall i | 0 <= i < |phones| :: phones[i].PhoneField? && IsPhoneNumber(phones[i].text)
    requires birthday.Some? ==> birthday.value.BirthdayField? && ValidDate(birthday.value.date)
    ensures |ContactHead(name)| + JoinedLength(|phones|) <= |RenderContact(name, phones, birthday)|
    ensures forall k | 0 <= k < |phones| ::
              RenderContact(name, phones, birthday)[|ContactHead(name)| + 12 * k .. |ContactHead(name)| + 12 * k + 10]
              == phones[k].text
  {
    var head, rest := ContactHead(name), BirthdaySuffix(birthday);
    assert RenderContact(name, phones, birthday) == head + Join(PhoneValues(phones), "; ") + rest;
    PhonesShown(head, phones, rest);
  }

  /** The birthday shows last, in the text form that `Birthday` parses back to
      the same field. */
  lemma RenderContactBirthday(name: string, phones: seq<Field>, birthday: Option<Field>)
    requires forall i | 0 <= i < |phones| :: phones[i].PhoneField? && IsPhoneNumber(phones[i].text)
    requires birthday.Some?
    requires birthday.value.BirthdayField? && ValidDate(birthday.value.date)
    ensures |ContactHead(name)| + JoinedLength(|phones|) + 22 == |RenderContact(name, phones, birthday)|
    ensures Birthday(RenderContact(name, phones, birthday)[|ContactHead(name)| + JoinedLength(|phones|) + 12..])
            == Success(birthday.value)
  {
    var head, joined, rest := ContactHead(name), Join(PhoneValues(phones), "; "), BirthdaySuffix(birthday);
    var s := RenderContact(name, phones, birthday);
    assert s == (head + joined) + rest;
    PhonesShown(head, phones, rest);
    BirthdayShown(head + joined, birthday);
    var tail := s[|head| + JoinedLength(|phones|) + 12..];
    assert tail == Render(birthday.value);
    BirthdayRoundTrip(birthday.value.date);
  }

  /** The phones part: each phone at its stride-twelve offset after the head. */
  lemma {:induction false} PhonesShown(head: string, phones: seq<Field>, rest: string)
    requires forall i | 0 <= i < |phones| :: phones[i].PhoneField? && IsPhoneNumber(phones[i].text)
    ensures |Join(PhoneValues(phones), "; ")| == JoinedLength(|phones|)
    ensures (head + Join(PhoneValues(phones), "; ") + rest)[..|head|] == head
    ensures forall k | 0 <= k < |phones| ::
              (head + Join(PhoneValues(phones), "; ") + rest)[|head| + 12 * k .. |head| + 12 * k + 10] == phones[k].text
  {
    var values := PhoneValues(phones);
    JoinedPhonesAt(values);
    var joined := Join(values, "; ");
    var s := head + joined + rest;
    forall k | 0 <= k < |phones| ensures s[|head| + 12 * k .. |head| + 12 * k + 10] == phones[k].text {
      assert s[|head| + 12 * k .. |head| + 12 * k + 10] == joined[12 * k .. 12 * k + 10];
    }
  }

  /** The birthday part: 22 characters ending in the rendered date. */
  lemma BirthdayShown(front: string, birthday: Option<Field>)
    requires birthday.Some? ==> birthday.value.BirthdayField? && ValidDate(birthday.value.date)
    ensures |BirthdaySuffix(birthday)| == if birthday.Some? then 22 else 0
    ensures birthday.Some? ==> (front + BirthdaySuffix(birthday))[|front| + 12..] == Render(birthday.value)
  {
  }

  /** A contact with one phone and no birthday. */
  lemma RenderExample()
    ensures RenderContact("Alice", [PhoneField("0501234567")], None) == "Contact name: Alice, Phones: 0501234567"
  {
  }

  class Record {
    const name: Field
    var phones: seq<Field>
    var birthday: Option<Field>

    /** A name that `Name` accepted, phones that `Phone` accepted and a birthday
        that `Birthday` accepted. */
    ghost predicate Valid()
      reads this
    {
      && name.NameField? && !IsBlank(name.text)
      && (forall i | 0 <= i < |phones| :: phones[i].PhoneField? && IsPhoneNumber(phones[i].text))
      && (birthday.Some? ==> birthday.value.BirthdayField? && ValidDate(birthday.value.date))
    }

    constructor (name: Field)
      requires name.NameField? && !IsBlank(name.text)
      ensures Valid()
      ensures this.name == name && phones == [] && birthday == None
    {
      this.name := name;
      phones := [];
      birthday := None;
    }

    /** `add_phone`: validates and appends, with no check for duplicates. */
    method AddPhone(phone: string) returns (r: Outcome<Error>)
      requires Valid()
      modifies this
      ensures Valid()
      ensures r.Pass? <==> IsPhoneNumber(phone)
      ensures r.Pass? ==> phones == old(phones) + [PhoneField(phone)]
      ensures r.Fail? ==> phones == old(phones) && r.error == ValueError("Phone number must consist of 10 digits.")
      ensures birthday == old(birthday)
    {
      var p := Phone(phone);
      if p.Failure? {
        return Fail(p.error);
      }
      phones := phones + [p.value];
      return Pass;
    }

    /** `remove_phone`: drops every entry with that value; nothing to drop is
        not an error. */
    method RemovePhone(phone: string)
      requires Valid()
      modifies this
      ensures Valid()
      ensures phones == Without(old(phones), phone)
      ensures birthday == old(birthday)
    {
      var kept := Without(phones, phone);
      forall i | 0 <= i < |kept| ensures kept[i] in phones {
        WithoutCounts(phones, phone, kept[i]);
        assert kept[i] in multiset(kept);
      }
      phones := kept;
    }

    /** `edit_phone`: the first entry equal to `Phone(oldPhone)` becomes
        `Phone(newPhone)`. An invalid old or new number and an absent old one
        all fail with the same error and leave the list as it was. */
    method EditPhone(oldPhone: string, newPhone: string) returns (r: Outcome<Error>)
      requires Valid()
      modifies this
      ensures Valid()
      ensures r.Pass? <==> IsPhoneNumber(oldPhone) && IsPhoneNumber(newPhone)
                           && IndexOf(old(phones), PhoneField(oldPhone)).Some?
      ensures r.Pass? ==> phones == old(phones)[IndexOf(old(phones), PhoneField(oldPhone)).value := PhoneField(newPhone)]
      ensures r.Fail? ==> phones == old(phones) && r.error == ValueError("Old phone number not found.")
      ensures birthday == old(birthday)
    {
      var notFound := ValueError("Old phone number not found.");
      var oldField := Phone(oldPhone);
      if oldField.Failure? {
        return Fail(notFound);
      }
      var index := IndexOf(phones, oldField.value);
      if index.None? {
        return Fail(notFound);
      }
      var newField := Phone(newPhone);
      if newField.Failure? {
        return Fail(notFound);
      }
      phones := phones[index.value := newField.value];
      return Pass;
    }

    /** `find_phone`: the first entry whose value is `phone`, if any. */
    method FindPhone(phone: string) returns (r: Option<Field>)
      ensures r.None? <==> forall j | 0 <= j < |phones| :: !HasValue(phones[j], phone)
      ensures r.Some? ==> exists i | 0 <= i < |phones| :: phones[i] == r.value && HasValue(r.value, phone)
                                                         && forall j | 0 <= j < i :: !HasValue(phones[j], phone)
    {
      for i := 0 to |phones|
        invariant forall j | 0 <= j < i :: !HasValue(phones[j], phone)
      {
        if HasValue(phones[i], phone) {
          return Some(phones[i]);
        }
      }
      return None;
    }

    /** `add_birthday`: parses and sets the birthday, replacing any earlier
        one; a bad date leaves the old birthday. */
    method AddBirthday(text: string) returns (r: Outcome<Error>)
      requires Valid()
      modifies this
      ensures Valid()
      ensures r.Pass? <==> ParseDate(text).Some?
      ensures r.Pass? ==> birthday == Some(BirthdayField(ParseDate(text).value))
      ensures r.Fail? ==> birthday == old(birthday) && r.error == ValueError("Invalid date format. Use DD.MM.YYYY")
      ensures phones == old(phones)
    {
      var b := Birthday(text);
      if b.Failure? {
        return Fail(b.error);
      }
      birthday := Some(b.value);
      return Pass;
    }

    /** `__str__` */
    function Render(): string
      reads this
      requires Valid()
    {
      RenderContact(name.text, phones, birthday)
    }
  }

  /** `Record(name)`: fails as `Name` does, otherwise a fresh record with no
      phones and no birthday. */
  method NewRecord(name: string) returns (r: Result<Record, Error>)
    ensures r.Success? <==> !IsBlank(name)
    ensures r.Success? ==> fresh(r.value) && r.value.Valid() && r.value.name == NameField(name)
                           && r.value.phones == [] && r.value.birthday == None
    ensures r.Failure? ==> r.error == ValueError("Name field cannot be empty.")
  {
    var n := Name(name);
    if n.Failure? {
      return Failure(n.error);
    }
    var record := new Record(n.value);
    return Success(record);
  }
}
