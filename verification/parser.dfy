/**
 * The lookup procedure of parser.py. The browser is replaced by what it
 * observes: for a searched username, the registry yields the detail page
 * behind each result card, in card order (so the card count is the length of
 * that list), and a detail page is its list of labelled info items and its URL.
 */
module Parser {
  import opened Records
  import PyStr
  import Storage

  const SearchUrl: string := "https://bankrot.fedresurs.ru/bankrupts"
  const UserDataDir: string := "./tmp"
  /** The label of the detail-page field that must carry the birthday. */
  const BirthdayField: string := "дата рождения"

  /** One info item of a detail page: the text of its label and of its value, either possibly absent. */
  datatype InfoItem = InfoItem(title: Option<string>, value: Option<string>)

  /** The tab a card opens: its info items and its URL. */
  datatype DetailPage = DetailPage(items: seq<InfoItem>, url: string)

  /** What a search for a username shows: the detail page behind each result card, in card order. */
  type Registry = string -> seq<DetailPage>

  /** The argument of `start`: one record or a list of records. */
  datatype TargetData = Single(record: InputRecord) | Batch(records: seq<InputRecord>)

  // ---------------------------------------------------------------- specification

  /** `title.strip().lower()`. */
  function Normalize(title: string): string
  {
    PyStr.Lower(PyStr.Strip(title, PyStr.IsSpace))
  }

  /** The item has a non-empty label naming the target field and carries exactly the control value. */
  predicate ItemMatches(item: InfoItem, targetField: string, controlData: string)
  {
    item.title.Some? && item.title.value != "" &&
    Normalize(item.title.value) == targetField &&
    item.value == Some(controlData)
  }

  /** Some item of the page matches. */
  predicate HasMatchingItem(items: seq<InfoItem>, targetField: string, controlData: string)
  {
    exists k :: 0 <= k < |items| && ItemMatches(items[k], targetField, controlData)
  }

  /** `_get_user_card`: the outcome record, with no link unless one is given. */
  function GetUserCard(found: bool, username: string, birthday: string, link: Option<string> := None): Outcome
  {
    Outcome(found, username, birthday, link)
  }

  /** What `_check_card` returns for a detail page: the birthday check, with the tab's URL as link whatever the verdict. */
  function CardVerdict(page: DetailPage, username: string, birthday: string): (r: Outcome)
    ensures r.username == username && r.birthday == birthday
    ensures r.found <==> HasMatchingItem(page.items, BirthdayField, birthday)
    ensures r.link == Some(page.url)
  {
    GetUserCard(HasMatchingItem(page.items, BirthdayField, birthday), username, birthday, Some(page.url))
  }

  /**
   * What `_check_user` returns for the cards a search showed: found exactly
   * when there is a card and the first card's detail page carries the
   * birthday; the link is that page's URL when found and absent otherwise.
   */
  function Verdict(username: string, birthday: string, cards: seq<DetailPage>): (r: Outcome)
    ensures r.username == username && r.birthday == birthday
    ensures r.found <==> |cards| > 0 && HasMatchingItem(cards[0].items, BirthdayField, birthday)
    ensures r.found ==> r.link == Some(cards[0].url)
    ensures !r.found ==> r.link == None
  {
    if |cards| == 0 then GetUserCard(false, username, birthday)
    else
      var answer := CardVerdict(cards[0], username, birthday);
      if answer.found then answer else GetUserCard(false, username, birthday)
  }

  /** The records a `start` argument stands for. */
  function RecordsOf(data: TargetData): seq<InputRecord>
  {
    match data
    case Single(record) => [record]
    case Batch(records) => records
  }

  /** The outcome of each record, in record order. */
  function Verdicts(records: seq<InputRecord>, registry: Registry): (r: seq<Outcome>)
    ensures |r| == |records|
    ensures forall k :: 0 <= k < |records| ==>
      r[k] == Verdict(records[k].username, records[k].birthday, registry(records[k].username))
  {
    seq(|records|, k requires 0 <= k < |records| =>
      Verdict(records[k].username, records[k].birthday, registry(records[k].username)))
  }

  // ---------------------------------------------------------------- the parser

  class BankruptParser {
    const url: string
    const storage: Storage.Storage
    const userDataDir: string

    constructor (storage: Storage.Storage)
      ensures this.storage == storage
      ensures url == SearchUrl && userDataDir == UserDataDir
    {
      this.url := SearchUrl;
      this.storage := storage;
      this.userDataDir := UserDataDir;
    }

    /** `__run`: one outcome per record is added to the collector, in record order. */
    method Run(data: TargetData, registry: Registry)
      modifies storage
      ensures storage.store == old(storage.store) + Verdicts(RecordsOf(data), registry)
      ensures storage.index == old(storage.index)
    {
      match data {
        case Single(record) =>
          var result := CheckUser(registry, record.username, record.birthday);
          storage.Add(result);
        case Batch(records) =>
          for k := 0 to |records|
            invariant storage.store == old(storage.store) + Verdicts(records[..k], registry)
            invariant storage.index == old(storage.index)
          {
            var result := CheckUser(registry, records[k].username, records[k].birthday);
            storage.Add(result);
            assert Verdicts(records[..k + 1], registry) == Verdicts(records[..k], registry) + [result];
          }
          assert records[..|records|] == records;
      }
    }

    /**
     * `_check_user`: zero cards give a not-found outcome; otherwise only the
     * first card is checked (the source's loop returns in its first
     * iteration on both branches), and a miss there gives a not-found outcome
     * without a link.
     */
    method CheckUser(registry: Registry, username: string, birthday: string) returns (outcome: Outcome)
      ensures outcome == Verdict(username, birthday, registry(username))
    {
      var cards := registry(username);
      var allCards: seq<DetailPage>;
      if |cards| > 1 {
        allCards := cards;
      } else if |cards| == 1 {
        allCards := [cards[0]];
      } else {
        outcome := GetUserCard(false, username, birthday);
        return;
      }
      var answer := CheckCard(allCards[0], birthday, username);
      if answer.found {
        outcome := answer;
      } else {
        outcome := GetUserCard(false, username, birthday);
      }
    }

    /** `_check_card`: checks the birthday on the card's detail page and links that page. */
    method CheckCard(page: DetailPage, birthday: string, username: string) returns (answer: Outcome)
      ensures answer == CardVerdict(page, username, birthday)
    {
      var isValid := DataIsValid(page.items, BirthdayField, birthday);
      answer := GetUserCard(isValid, username, birthday, Some(page.url));
    }

    /** `_data_is_valid`: scans the items in order and stops at the first match. */
    method DataIsValid(items: seq<InfoItem>, targetField: string, controlData: string) returns (valid: bool)
      ensures valid <==> HasMatchingItem(items, targetField, controlData)
    {
      for k := 0 to |items|
        invariant forall j :: 0 <= j < k ==> !ItemMatches(items[j], targetField, controlData)
      {
        var title := items[k].title;
        if title.Some? && title.value != "" && Normalize(title.value) == targetField {
          var value := items[k].value;
          if value == Some(controlData) {
            return true;
          }
        }
      }
      return false;
    }
  }

  // ---------------------------------------------------------------- properties of the field check

  /** No items, no match. */
  lemma NoItemsNoMatch(targetField: string, controlData: string)
    ensures !HasMatchingItem([], targetField, controlData)
  {
  }

  /** Items with a missing or empty label are skipped: putting one in front changes nothing. */
  lemma UnlabelledItemIgnored(item: InfoItem, items: seq<InfoItem>, targetField: string, controlData: string)
    requires item.title == None || item.title == Some("")
    ensures HasMatchingItem([item] + items, targetField, controlData) == HasMatchingItem(items, targetField, controlData)
  {
    var all := [item] + items;
    if HasMatchingItem(all, targetField, controlData) {
      var k :| 0 <= k < |all| && ItemMatches(all[k], targetField, controlData);
      assert k > 0;
      assert all[k] == items[k - 1];
    }
    if HasMatchingItem(items, targetField, controlData) {
      var k :| 0 <= k < |items| && ItemMatches(items[k], targetField, controlData);
      assert all[k + 1] == items[k];
    }
  }

  /** Values are compared verbatim: a value padded with a space does not match. */
  lemma PaddedValueRejected(title: string, targetField: string, controlData: string)
    ensures !ItemMatches(InfoItem(Some(title), Some(controlData + " ")), targetField, controlData)
    ensures !ItemMatches(InfoItem(Some(title), Some(" " + controlData)), targetField, controlData)
  {
    assert |controlData + " "| != |controlData|;
    assert |" " + controlData| != |controlData|;
  }

  /** A target field with an upper-case letter can never be matched, since labels are lowered before the comparison. */
  lemma UppercaseTargetNeverMatches(items: seq<InfoItem>, targetField: string, controlData: string, i: int)
    requires 0 <= i < |targetField| && PyStr.IsUpper(targetField[i])
    ensures !HasMatchingItem(items, targetField, controlData)
  {
    forall k | 0 <= k < |items| && items[k].title.Some?
      ensures Normalize(items[k].title.value) != targetField
    {
      var s := PyStr.Strip(items[k].title.value, PyStr.IsSpace);
      PyStr.LowerNormalForm(s);
      if |PyStr.Lower(s)| == |targetField| {
        assert !PyStr.IsUpper(PyStr.Lower(s)[i]);
      }
    }
  }

  /** Surrounding whitespace and capitals in the label do not matter. */
  lemma LabelNormalised(value: string)
    ensures ItemMatches(InfoItem(Some(" Дата рождения\n"), Some(value)), BirthdayField, value)
  {
    var raw := " Дата рождения\n";
    var capitalised := "Дата рождения";
    StripsToCapitalised(raw, capitalised);
    LowersToField(capitalised);
  }

  lemma StripsToCapitalised(raw: string, capitalised: string)
    requires raw == " Дата рождения\n" && capitalised == "Дата рождения"
    ensures PyStr.Strip(raw, PyStr.IsSpace) == capitalised
  {
    assert PyStr.IsSpace(raw[0]) && !PyStr.IsSpace(raw[1]);
    assert PyStr.StripLeft(raw[1..], PyStr.IsSpace) == raw[1..];
    assert PyStr.StripLeft(raw, PyStr.IsSpace) == raw[1..];
    var core := raw[1..];
    assert PyStr.IsSpace(core[|core| - 1]) && !PyStr.IsSpace(core[|core| - 2]);
    assert core[..|core| - 1] == capitalised;
    assert PyStr.StripRight(capitalised, PyStr.IsSpace) == capitalised;
  }

  lemma LowersToField(capitalised: string)
    requires capitalised == "Дата рождения"
    ensures PyStr.Lower(capitalised) == BirthdayField
  {
    var lowered := PyStr.Lower(capitalised);
    assert PyStr.LowerChar(capitalised[0]) == BirthdayField[0];
    forall k | 1 <= k < |capitalised|
      ensures lowered[k] == BirthdayField[k]
    {
      assert capitalised[k] == BirthdayField[k];
      assert !PyStr.IsUpper(capitalised[k]);
    }
  }

  // ---------------------------------------------------------------- properties of the verdict

  /** Only the first card counts: whatever follows it leaves the outcome unchanged. */
  lemma FirstCardOnly(username: string, birthday: string, first: DetailPage, later: seq<DetailPage>)
    ensures Verdict(username, birthday, [first] + later) == Verdict(username, birthday, [first])
  {
  }

  /** A matching second card is never looked at: when the first card misses, the person is reported not found. */
  lemma SecondCardIgnored(username: string, birthday: string, miss: DetailPage, hit: DetailPage)
    requires !HasMatchingItem(miss.items, BirthdayField, birthday)
    requires HasMatchingItem(hit.items, BirthdayField, birthday)
    ensures Verdict(username, birthday, [miss, hit]) == Outcome(false, username, birthday, None)
    ensures Verdict(username, birthday, [hit, miss]) == Outcome(true, username, birthday, Some(hit.url))
  {
  }

  /** A miss on the first card drops the URL that the card check produced. */
  lemma MissDropsCardLink(username: string, birthday: string, cards: seq<DetailPage>)
    requires |cards| > 0 && !HasMatchingItem(cards[0].items, BirthdayField, birthday)
    ensures CardVerdict(cards[0], username, birthday).link == Some(cards[0].url)
    ensures Verdict(username, birthday, cards).link == None
  {
  }

  /** No cards: not found, no link. */
  lemma ZeroCards(username: string, birthday: string)
    ensures Verdict(username, birthday, []) == Outcome(false, username, birthday, None)
  {
  }

  /** One card whose detail page carries the birthday: found, linked to that page. */
  lemma OneMatchingCard(username: string, birthday: string, url: string)
    ensures Verdict(username, birthday, [DetailPage([InfoItem(Some(BirthdayField), Some(birthday))], url)]) ==
      Outcome(true, username, birthday, Some(url))
  {
    var item := InfoItem(Some(BirthdayField), Some(birthday));
    LabelAlreadyNormal();
    assert ItemMatches(item, BirthdayField, birthday);
    assert [item][0] == item;
  }

  /** One card whose detail page carries another birthday: not found, no link. */
  lemma OneMismatchingCard(username: string, birthday: string, other: string, url: string)
    requires other != birthday
    ensures Verdict(username, birthday, [DetailPage([InfoItem(Some(BirthdayField), Some(other))], url)]) ==
      Outcome(false, username, birthday, None)
  {
  }

  /** The target label is its own normal form. */
  lemma LabelAlreadyNormal()
    ensures Normalize(BirthdayField) == BirthdayField
  {
    FieldTrimmed();
    FieldLowercase();
  }

  lemma FieldTrimmed()
    ensures PyStr.Strip(BirthdayField, PyStr.IsSpace) == BirthdayField
  {
    assert !PyStr.IsSpace(BirthdayField[0]) && !PyStr.IsSpace(BirthdayField[|BirthdayField| - 1]);
    PyStr.StripUnchanged(BirthdayField, PyStr.IsSpace);
  }

  lemma FieldLowercase()
    ensures PyStr.Lower(BirthdayField) == BirthdayField
  {
    assert forall k :: 0 <= k < |BirthdayField| ==> !PyStr.IsUpper(BirthdayField[k]);
    PyStr.LowerNormalForm(BirthdayField);
  }

  /** Every outcome of a run answers its own record, in record order, and a not-found outcome carries no link. */
  lemma VerdictsFollowRecords(records: seq<InputRecord>, registry: Registry)
    ensures |Verdicts(records, registry)| == |records|
    ensures forall k :: 0 <= k < |records| ==>
      var o := Verdicts(records, registry)[k];
      o.username == records[k].username && o.birthday == records[k].birthday && (!o.found ==> o.link == None)
  {
  }

  /** Running on a batch of records is running on each in turn: the outcomes of two batches are concatenated. */
  lemma VerdictsAppend(a: seq<InputRecord>, b: seq<InputRecord>, registry: Registry)
    ensures Verdicts(a + b, registry) == Verdicts(a, registry) + Verdicts(b, registry)
  {
  }
}
