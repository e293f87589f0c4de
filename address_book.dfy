/** The address book: records keyed by their names, kept in insertion order,
    and the query for birthdays in the coming days. */
module AddressBooks {
  import opened Wrappers
  import opened Calendar
  import opened Fields
  import opened Records

  /** One entry of `get_upcoming_birthdays`: the record's name and the day to
      congratulate, as `DD.MM.YYYY`. */
  datatype Greeting = Greeting(name: string, congratulationDate: string)

  /** What the birthday query reads of a record: its name and birthday. */
  datatype Card = Card(name: string, birthday: Option<Date>)

  predicate CardsOk(cards: seq<Card>) {
    forall i | 0 <= i < |cards| :: cards[i].birthday.Some? ==> ValidDate(cards[i].birthday.value)
  }

  predicate DistinctNames(cards: seq<Card>) {
    forall i, j | 0 <= i < j < |cards| :: cards[i].name != cards[j].name
  }

  // ---------------------------------------------------------------------------
  // Projecting a birthday onto the coming year

  /** When projecting `b` relative to `today` raises: February 29 onto a year
      that lacks it, or a birthday already past in year 9999, whose next year
      does not exist. */
  predicate ProjectionFails(b: Date, today: Date) {
    || (b.month == 2 && b.day == 29 && (!IsLeap(today.year) || Before(Date(today.year, 2, 29), today)))
    || (today.year == MaxYear && Before(Date(today.year, b.month, b.day), today))
  }

  /** The birthday moved to today's year, or to the next year when that date
      has already passed. */
  function Project(b: Date, today: Date): (r: Result<Date, Error>)
    requires ValidDate(b) && ValidDate(today)
    ensures r.Failure? <==> ProjectionFails(b, today)
    ensures r.Success? ==> ValidDate(r.value) && r.value.month == b.month && r.value.day == b.day
    ensures r.Success? ==> r.value.year == if Before(Date(today.year, b.month, b.day), today) then today.year + 1 else today.year
    ensures r.Success? ==> !Before(r.value, today) && Ordinal(today) <= Ordinal(r.value)
  {
    match ReplaceYear(b, today.year)
    case Failure(e) => Failure(e)
    case Success(thisYear) =>
      if Before(thisYear, today) then
        var next := ReplaceYear(thisYear, today.year + 1);
        if next.Success? then OrdinalOrder(next.value, today); next else next
      else
        OrdinalOrder(thisYear, today);
        Success(thisYear)
  }

  /** Moving `n` days on moves the weekday `n` places round the week. */
  lemma WeekdayAfter(p: Date, c: Date, n: int)
    requires ValidDate(p) && ValidDate(c) && Ordinal(c) == Ordinal(p) + n
    ensures Weekday(c) == (Weekday(p) + n) % 7
  {
    var o := Ordinal(p) + 6;
    QuotientUnique(o, 7, o / 7, o % 7);
    QuotientUnique(o + n, 7, o / 7 + (o % 7 + n) / 7, (o % 7 + n) % 7);
  }

  lemma WeekendShiftInRange(p: Date)
    requires ValidDate(p) && Weekday(p) >= 5
    ensures Ordinal(p) + 7 - Weekday(p) <= Ordinal(MaxDate)
  {
    OrdinalAtMostMax(p);
    MaxDateIsFriday();
  }

  /** The day to congratulate on: the projected date itself on a weekday, the
      following Monday on a Saturday or a Sunday. Shifting never passes the
      last representable date, which is a Friday. */
  function Congratulation(p: Date): (c: Date)
    requires ValidDate(p)
    ensures ValidDate(c) && Weekday(c) < 5
    ensures Weekday(p) < 5 ==> c == p
    ensures Weekday(p) == 5 ==> Ordinal(c) == Ordinal(p) + 2 && Weekday(c) == 0
    ensures Weekday(p) == 6 ==> Ordinal(c) == Ordinal(p) + 1 && Weekday(c) == 0
  {
    var w := Weekday(p);
    if w >= 5 then
      WeekendShiftInRange(p);
      var c := AddDays(p, 7 - w);
      WeekdayAfter(p, c, 7 - w);
      c
    else
      p
  }

  // ---------------------------------------------------------------------------
  // The query, record by record

  /** What one record contributes: nothing without a birthday or outside the
      window, a greeting inside it, or the error projecting raised. */
  function GreetingFor(c: Card, today: Date, days: int): Result<Option<Greeting>, Error>
    requires c.birthday.Some? ==> ValidDate(c.birthday.value)
    requires ValidDate(today)
  {
    match c.birthday
    case None => Success(None)
    case Some(b) =>
      match Project(b, today)
      case Failure(e) => Failure(e)
      case Success(p) =>
        if 0 <= Ordinal(p) - Ordinal(today) <= days then
          Success(Some(Greeting(c.name, FormatDate(Congratulation(p)))))
        else
          Success(None)
  }

  /** `get_upcoming_birthdays` over the records in order: the greetings of the
      records in the window, or the first error. */
  function Upcoming(cards: seq<Card>, today: Date, days: int): Result<seq<Greeting>, Error>
    requires CardsOk(cards) && ValidDate(today)
    decreases |cards|
  {
    if cards == [] then Success([])
    else
      var n := |cards| - 1;
      assert CardsOk(cards[..n]);
      match Upcoming(cards[..n], today, days)
      case Failure(e) => Failure(e)
      case Success(acc) =>
        match GreetingFor(cards[n], today, days)
        case Failure(e) => Failure(e)
        case Success(None) => Success(acc)
        case Success(Some(g)) => Success(acc + [g])
  }

  /** A record that gets a greeting: it has a birthday, projecting it succeeds,
      and the projected date is 0 to `days` days from today. */
  predicate Qualifies(c: Card, today: Date, days: int)
    requires c.birthday.Some? ==> ValidDate(c.birthday.value)
    requires ValidDate(today)
  {
    && c.birthday.Some?
    && Project(c.birthday.value, today).Success?
    && 0 <= Ordinal(Project(c.birthday.value, today).value) - Ordinal(today) <= days
  }

  /** The greeting a qualifying record gets. */
  function GreetingOf(c: Card, today: Date): Greeting
    requires c.birthday.Some? && ValidDate(c.birthday.value) && ValidDate(today)
    requires Project(c.birthday.value, today).Success?
  {
    Greeting(c.name, FormatDate(Congratulation(Project(c.birthday.value, today).value)))
  }

  /** The positions of the qualifying records, in increasing order. */
  function Selected(cards: seq<Card>, today: Date, days: int): (r: seq<nat>)
    requires CardsOk(cards) && ValidDate(today)
    ensures forall k | 0 <= k < |r| :: r[k] < |cards|
    decreases |cards|
  {
    if cards == [] then []
    else
      var n := |cards| - 1;
      assert CardsOk(cards[..n]);
      Selected(cards[..n], today, days) + (if Qualifies(cards[n], today, days) then [n] else [])
  }

  /** Every position `Selected` lists is that of a qualifying record. */
  lemma {:induction false} SelectedQualify(cards: seq<Card>, today: Date, days: int)
    requires CardsOk(cards) && ValidDate(today)
    ensures forall k | 0 <= k < |Selected(cards, today, days)| ::
              Qualifies(cards[Selected(cards, today, days)[k]], today, days)
    decreases |cards|
  {
    if cards != [] {
      var n := |cards| - 1;
      var prefix := cards[..n];
      SelectedQualify(prefix, today, days);
      var before := Selected(prefix, today, days);
      var r := Selected(cards, today, days);
      forall k | 0 <= k < |r| ensures Qualifies(cards[r[k]], today, days) {
        if k < |before| {
          assert r[k] == before[k] && prefix[before[k]] == cards[before[k]];
          assert Qualifies(prefix[before[k]], today, days);
        } else {
          assert r[k] == n;
        }
      }
    }
  }

  /** `Selected` lists its positions in increasing order, so each once. */
  lemma {:induction false} SelectedIncreasing(cards: seq<Card>, today: Date, days: int)
    requires CardsOk(cards) && ValidDate(today)
    ensures forall k, l | 0 <= k < l < |Selected(cards, today, days)| ::
              Selected(cards, today, days)[k] < Selected(cards, today, days)[l]
    decreases |cards|
  {
    if cards != [] {
      var n := |cards| - 1;
      SelectedIncreasing(cards[..n], today, days);
    }
  }

  /** `Selected` misses no qualifying record. */
  lemma {:induction false} SelectedComplete(cards: seq<Card>, today: Date, days: int)
    requires CardsOk(cards) && ValidDate(today)
    ensures forall i | 0 <= i < |cards| && Qualifies(cards[i], today, days) :: i in Selected(cards, today, days)
    decreases |cards|
  {
    if cards != [] {
      var n := |cards| - 1;
      var prefix := cards[..n];
      SelectedComplete(prefix, today, days);
      var before := Selected(prefix, today, days);
      var r := Selected(cards, today, days);
      forall i | 0 <= i < |cards| && Qualifies(cards[i], today, days) ensures i in r {
        if i < n {
          assert prefix[i] == cards[i];
          assert i in before;
        } else {
          assert r[|r| - 1] == n;
        }
      }
    }
  }

  /** The query over one more record continues from the query over the records
      before it. */
  lemma UpcomingStep(cards: seq<Card>, i: nat, today: Date, days: int, acc: seq<Greeting>)
    requires CardsOk(cards) && ValidDate(today) && i < |cards|
    requires Upcoming(cards[..i], today, days) == Success(acc)
    ensures var step := GreetingFor(cards[i], today, days);
            Upcoming(cards[..i + 1], today, days)
            == match step
               case Failure(e) => Failure(e)
               case Success(None) => Success(acc)
               case Success(Some(g)) => Success(acc + [g])
  {
    assert cards[..i + 1][..i] == cards[..i];
  }

  /** Once a prefix of the records fails, the whole query fails the same way:
      the first error is the one raised. */
  lemma {:induction false} UpcomingKeepsFirstError(cards: seq<Card>, k: nat, today: Date, days: int)
    requires CardsOk(cards) && ValidDate(today) && k <= |cards|
    requires Upcoming(cards[..k], today, days).Failure?
    ensures Upcoming(cards, today, days) == Upcoming(cards[..k], today, days)
    decreases |cards|
  {
    if k == |cards| {
      assert cards[..k] == cards;
    } else {
      var n := |cards| - 1;
      assert cards[..n][..k] == cards[..k];
      UpcomingKeepsFirstError(cards[..n], k, today, days);
    }
  }

  /** The query fails exactly when some record has a birthday whose projection
      fails. */
  lemma {:induction false} UpcomingFailsIff(cards: seq<Card>, today: Date, days: int)
    requires CardsOk(cards) && ValidDate(today)
    ensures Upcoming(cards, today, days).Failure?
            <==> exists i | 0 <= i < |cards| :: cards[i].birthday.Some? && ProjectionFails(cards[i].birthday.value, today)
    decreases |cards|
  {
    if cards != [] {
      var n := |cards| - 1;
      UpcomingFailsIff(cards[..n], today, days);
      assert forall i | 0 <= i < n :: cards[..n][i] == cards[i];
    }
  }

  /** On success, the query returns one greeting per qualifying record, in
      record order, and nothing else. */
  lemma {:induction false} UpcomingIsSelected(cards: seq<Card>, today: Date, days: int)
    requires CardsOk(cards) && ValidDate(today)
    requires Upcoming(cards, today, days).Success?
    ensures var out := Upcoming(cards, today, days).value;
            var picked := Selected(cards, today, days);
            && |out| == |picked|
            && forall k | 0 <= k < |out| ::
                 cards[picked[k]].birthday.Some?
                 && Project(cards[picked[k]].birthday.value, today).Success?
                 && out[k] == GreetingOf(cards[picked[k]], today)
    decreases |cards|
  {
    if cards != [] {
      var n := |cards| - 1;
      UpcomingIsSelected(cards[..n], today, days);
      assert forall i | 0 <= i < n :: cards[..n][i] == cards[i];
    }
  }

  /** Every greeting belongs to a different record when the names are
      distinct, as the keys of the book are. */
  lemma UpcomingNamesDistinct(cards: seq<Card>, today: Date, days: int)
    requires CardsOk(cards) && ValidDate(today) && DistinctNames(cards)
    requires Upcoming(cards, today, days).Success?
    ensures var out := Upcoming(cards, today, days).value;
            forall k, l | 0 <= k < l < |out| :: out[k].name != out[l].name
  {
    UpcomingIsSelected(cards, today, days);
    SelectedIncreasing(cards, today, days);
  }

  // ---------------------------------------------------------------------------
  // The book

  /** The list with `x` taken out. */
  function Erase(s: seq<string>, x: string): (r: seq<string>)
    ensures forall y :: y in r <==> y in s && y != x
    ensures (forall i, j | 0 <= i < j < |s| :: s[i] != s[j]) ==> forall i, j | 0 <= i < j < |r| :: r[i] != r[j]
    decreases |s|
  {
    if s == [] then []
    else
      var rest := Erase(s[1..], x);
      assert (forall i, j | 0 <= i < j < |s| :: s[i] != s[j]) ==> s[0] !in s[1..] by {
        if s[0] in s[1..] {
          var k :| 0 <= k < |s[1..]| && s[1..][k] == s[0];
          assert s[k + 1] == s[0];
        }
      }
      (if s[0] == x then [] else [s[0]]) + rest
  }

  /** Erasing a key that is not there changes nothing. */
  lemma {:induction false} EraseAbsent(s: seq<string>, x: string)
    requires x !in s
    ensures Erase(s, x) == s
    decreases |s|
  {
    if s != [] {
      EraseAbsent(s[1..], x);
    }
  }

  /** Erasing a key that occurs only at position `i` leaves the keys before and
      after it, in their order. */
  lemma {:induction false} EraseKeepsOrder(s: seq<string>, x: string, i: nat)
    requires i < |s| && s[i] == x
    requires forall j | 0 <= j < |s| && j != i :: s[j] != x
    ensures Erase(s, x) == s[..i] + s[i + 1..]
    decreases |s|
  {
    var tail := s[1..];
    if i == 0 {
      assert forall j | 0 <= j < |tail| :: tail[j] == s[j + 1];
      EraseAbsent(tail, x);
    } else {
      assert forall j | 0 <= j < |tail| :: tail[j] == s[j + 1];
      EraseKeepsOrder(tail, x, i - 1);
      assert [s[0]] + (tail[..i - 1] + tail[i..]) == s[..i] + s[i + 1..];
    }
  }

  function BirthdayOf(b: Option<Field>): Option<Date> {
    if b.Some? && b.value.BirthdayField? then Some(b.value.date) else None
  }

  /** One pass of the loop in `get_upcoming_birthdays`: project the record's
      birthday, keep it when it falls in the window, and move a weekend date
      to the following Monday. */
  method Consider(record: Record, today: Date, days: int) returns (r: Result<Option<Greeting>, Error>)
    requires record.Valid() && ValidDate(today)
    ensures r == GreetingFor(Card(record.name.text, BirthdayOf(record.birthday)), today, days)
  {
    if record.birthday.None? {
      return Success(None);
    }
    var birthday := record.birthday.value.date;
    var projected := ReplaceYear(birthday, today.year);
    if projected.Failure? {
      return Failure(projected.error);
    }
    if Before(projected.value, today) {
      projected := ReplaceYear(projected.value, today.year + 1);
      if projected.Failure? {
        return Failure(projected.error);
      }
    }
    var day := projected.value;
    assert Project(birthday, today) == Success(day);
    if !(0 <= Ordinal(day) - Ordinal(today) <= days) {
      return Success(None);
    }
    var congratulation;
    var weekday := Weekday(day);
    if weekday >= 5 {
      WeekendShiftInRange(day);
      var daysAhead := 7 - weekday;
      congratulation := FormatDate(AddDays(day, daysAhead));
    } else {
      congratulation := FormatDate(day);
    }
    return Success(Some(Greeting(record.name.text, congratulation)));
  }

  /** `str(record)` for the record filed under each key, in key order. */
  function RenderKeys(keys: seq<string>, data: map<string, Record>): seq<string>
    reads data.Values
    requires forall k | k in keys :: k in data && data[k].Valid()
    decreases |keys|
  {
    if keys == [] then []
    else RenderKeys(keys[..|keys| - 1], data) + [data[keys[|keys| - 1]].Render()]
  }

  /** Filing a record under a new key does not change the lines of the other
      keys. */
  lemma {:induction false} RenderKeysUnaffected(keys: seq<string>, data: map<string, Record>, key: string, record: Record)
    requires forall k | k in keys :: k in data && data[k].Valid()
    requires key !in keys && record.Valid()
    ensures RenderKeys(keys, data[key := record]) == RenderKeys(keys, data)
    decreases |keys|
  {
    if keys != [] {
      RenderKeysUnaffected(keys[..|keys| - 1], data, key, record);
    }
  }

  /** Filing a record under a new key, last in order, adds its line at the end. */
  lemma RenderKeysAppend(keys: seq<string>, data: map<string, Record>, key: string, record: Record)
    requires forall k | k in keys :: k in data && data[k].Valid()
    requires key !in keys && record.Valid()
    ensures RenderKeys(keys + [key], data[key := record]) == RenderKeys(keys, data) + [record.Render()]
  {
    RenderKeysUnaffected(keys, data, key, record);
    assert (keys + [key])[..|keys|] == keys;
  }

  class AddressBook {
    /** The names in insertion order, as the dictionary iterates them. */
    var order: seq<string>
    var data: map<string, Record>

    /** Each name at most once, the same names in both, and every record filed
        under its own valid name. */
    ghost predicate Valid()
      reads this, data.Values
    {
      && (forall i, j | 0 <= i < j < |order| :: order[i] != order[j])
      && (forall k :: k in data <==> k in order)
      && (forall k | k in data :: data[k].name == NameField(k) && data[k].Valid())
    }

    constructor ()
      ensures Valid() && order == [] && data == map[]
    {
      order := [];
      data := map[];
    }

    /** `find`: the record filed under `name`, if any. */
    function Find(name: string): (r: Option<Record>)
      reads this, data.Values
      requires Valid()
      ensures r.Some? <==> name in order
      ensures r.Some? ==> r.value.name == NameField(name) && r.value.Valid()
    {
      if name in data then Some(data[name]) else None
    }

    /** `add_record`: files the record under its name, failing when the name is
        already taken. */
    method AddRecord(record: Record) returns (r: Outcome<Error>)
      requires Valid() && record.Valid()
      modifies this
      ensures Valid()
      ensures r.Pass? <==> record.name.text !in old(data)
      ensures r.Pass? ==> data == old(data)[record.name.text := record] && order == old(order) + [record.name.text]
      ensures r.Pass? ==> Find(record.name.text) == Some(record)
      ensures r.Pass? ==> Lines() == old(Lines()) + [record.Render()]
      ensures r.Pass? ==> Render() == if old(order) == [] then record.Render() else old(Render()) + "\n" + record.Render()
      ensures r.Fail? ==> unchanged(this) && r.error == ValueError("Record with this name already exists.")
    {
      var key := record.name.text;
      if key in data {
        return Fail(ValueError("Record with this name already exists."));
      }
      ghost var before := Lines();
      File(record);
      assert unchanged(old(data).Values);
      RenderKeysUnaffected(old(order), old(data), key, record);
      assert order[..|order| - 1] == old(order);
      assert Lines() == RenderKeys(old(order), data) + [record.Render()];
      JoinAppend(before, record.Render(), "\n");
      return Pass;
    }

    /** The dictionary store `self.data[name] = record` for a new name: the
        record goes last in the iteration order. */
    method File(record: Record)
      requires Valid() && record.Valid() && record.name.text !in data
      modifies this
      ensures Valid()
      ensures data == old(data)[record.name.text := record] && order == old(order) + [record.name.text]
    {
      data, order := data[record.name.text := record], order + [record.name.text];
    }

    /** `delete`: removes the record filed under `name`, failing when there is
        none. */
    method Delete(name: string) returns (r: Outcome<Error>)
      requires Valid()
      modifies this
      ensures Valid()
      ensures r.Pass? <==> name in old(data)
      ensures r.Pass? ==> data == old(data) - {name} && order == Erase(old(order), name)
      ensures r.Pass? ==> exists i | 0 <= i < |old(order)| :: old(order)[i] == name && order == old(order)[..i] + old(order)[i + 1..]
      ensures r.Pass? ==> Find(name) == None
      ensures r.Fail? ==> unchanged(this) && r.error == KeyError("Record not found.")
    {
      if name !in data {
        return Fail(KeyError("Record not found."));
      }
      var i :| 0 <= i < |order| && order[i] == name;
      EraseKeepsOrder(order, name, i);
      var rest := Erase(order, name);
      data, order := data - {name}, rest;
      assert Valid();
      return Pass;
    }

    /** The records as the birthday query reads them, in insertion order. */
    function Cards(): (cards: seq<Card>)
      reads this, data.Values
      requires Valid()
      ensures |cards| == |order| && CardsOk(cards) && DistinctNames(cards)
      ensures forall i | 0 <= i < |order| :: cards[i] == Card(order[i], BirthdayOf(data[order[i]].birthday))
    {
      seq(|order|, i reads this, data.Values requires 0 <= i < |order| && order[i] in data =>
        Card(order[i], BirthdayOf(data[order[i]].birthday)))
    }

    /** `get_upcoming_birthdays`, with the current date passed in. */
    method GetUpcomingBirthdays(today: Date, days: int := 7) returns (r: Result<seq<Greeting>, Error>)
      requires Valid() && ValidDate(today)
      ensures r == Upcoming(Cards(), today, days)
    {
      ghost var cards := Cards();
      var upcoming: seq<Greeting> := [];
      var i := 0;
      while i < |order|
        invariant 0 <= i <= |order| && Valid() && cards == Cards()
        invariant Upcoming(cards[..i], today, days) == Success(upcoming)
      {
        var record := data[order[i]];
        var step := Consider(record, today, days);
        assert Card(record.name.text, BirthdayOf(record.birthday)) == cards[i];
        assert step == GreetingFor(cards[i], today, days);
        UpcomingStep(cards, i, today, days, upcoming);
        if step.Failure? {
          assert Upcoming(cards[..i + 1], today, days) == Failure(step.error);
          UpcomingKeepsFirstError(cards, i + 1, today, days);
          return Failure(step.error);
        }
        if step.value.Some? {
          upcoming := upcoming + [step.value.value];
        }
        i := i + 1;
      }
      assert cards[..i] == cards;
      assert Upcoming(cards, today, days) == Success(upcoming);
      return Success(upcoming);
    }

    /** The rendering of each record, in insertion order. */
    function Lines(): seq<string>
      reads this, data.Values
      requires Valid()
    {
      RenderKeys(order, data)
    }

    /** `__str__`: the records' renderings, one per line. */
    function Render(): string
      reads this, data.Values
      requires Valid()
    {
      Join(Lines(), "\n")
    }
  }

  // ---------------------------------------------------------------------------
  // Worked examples

  /** One more record that gets a greeting adds that greeting at the end. */
  lemma UpcomingAppendsGreeting(cards: seq<Card>, c: Card, today: Date, days: int, acc: seq<Greeting>, g: Greeting)
    requires CardsOk(cards) && ValidDate(today) && (c.birthday.Some? ==> ValidDate(c.birthday.value))
    requires Upcoming(cards, today, days) == Success(acc)
    requires GreetingFor(c, today, days) == Success(Some(g))
    ensures CardsOk(cards + [c]) && Upcoming(cards + [c], today, days) == Success(acc + [g])
  {
    assert (cards + [c])[..|cards|] == cards;
  }

  /** Sunday 10.03.2024 and the two birthdays of the weekend example. */
  lemma ExampleWeekdays()
    ensures Weekday(Date(2024, 3, 10)) == 6
    ensures Weekday(Date(2024, 3, 12)) == 1
    ensures Weekday(Date(2024, 3, 16)) == 5
  {
    assert DaysBeforeYear(2024) == 738885;
    assert Ordinal(Date(2024, 3, 10)) == 738955;
  }

  /** A Tuesday birthday two days ahead is congratulated on the day. */
  lemma BobGreeting()
    ensures GreetingFor(Card("Bob", Some(Date(2024, 3, 12))), Date(2024, 3, 10), 7)
            == Success(Some(Greeting("Bob", "12.03.2024")))
  {
    var today := Date(2024, 3, 10);
    assert Project(Date(2024, 3, 12), today) == Success(Date(2024, 3, 12));
    ExampleWeekdays();
    assert FormatDate(Date(2024, 3, 12)) == "12.03.2024";
  }

  /** A Saturday birthday six days ahead is congratulated on the Monday after. */
  lemma CarlGreeting()
    ensures GreetingFor(Card("Carl", Some(Date(2024, 3, 16))), Date(2024, 3, 10), 7)
            == Success(Some(Greeting("Carl", "18.03.2024")))
  {
    var today := Date(2024, 3, 10);
    assert Project(Date(2024, 3, 16), today) == Success(Date(2024, 3, 16));
    ExampleWeekdays();
    assert Congratulation(Date(2024, 3, 16)) == Date(2024, 3, 18) by {
      OrdinalOrder(Congratulation(Date(2024, 3, 16)), Date(2024, 3, 18));
    }
    assert FormatDate(Date(2024, 3, 18)) == "18.03.2024";
  }

  /** Today is Sunday 10.03.2024: a Tuesday birthday is kept as it is, a
      Saturday one moves to Monday 18.03.2024. */
  lemma WeekendExample()
    ensures Upcoming([Card("Bob", Some(Date(2024, 3, 12))), Card("Carl", Some(Date(2024, 3, 16)))], Date(2024, 3, 10), 7)
            == Success([Greeting("Bob", "12.03.2024"), Greeting("Carl", "18.03.2024")])
  {
    var today := Date(2024, 3, 10);
    var bob, carl := Card("Bob", Some(Date(2024, 3, 12))), Card("Carl", Some(Date(2024, 3, 16)));
    var gb, gc := Greeting("Bob", "12.03.2024"), Greeting("Carl", "18.03.2024");
    BobGreeting();
    CarlGreeting();
    UpcomingAppendsGreeting([], bob, today, 7, [], gb);
    assert [] + [bob] == [bob] && [] + [gb] == [gb];
    UpcomingAppendsGreeting([bob], carl, today, 7, [gb], gc);
    assert [bob] + [carl] == [bob, carl] && [gb] + [gc] == [gb, gc];
  }

  /** On 31.12.2024 a first-of-January birthday has passed for the year and is
      projected onto 01.01.2025. */
  lemma YearEndExample()
    ensures Upcoming([Card("Dana", Some(Date(2000, 1, 1)))], Date(2024, 12, 31), 7)
            == Success([Greeting("Dana", "01.01.2025")])
  {
    var today := Date(2024, 12, 31);
    var dana := Card("Dana", Some(Date(2000, 1, 1)));
    assert Project(Date(2000, 1, 1), today) == Success(Date(2025, 1, 1));
    assert Weekday(Date(2025, 1, 1)) == 2;
    assert FormatDate(Date(2025, 1, 1)) == "01.01.2025";
    UpcomingAppendsGreeting([], dana, today, 7, [], Greeting("Dana", "01.01.2025"));
    assert [] + [dana] == [dana];
    assert [] + [Greeting("Dana", "01.01.2025")] == [Greeting("Dana", "01.01.2025")];
  }
}
