/** The data logic of `src/components/admin/AdminPanel.tsx`: the customer list
    filter, the export filter, gift-card display names, the pagination of gift
    cards that still lack a username, and the local replace-by-id updates after
    a save. Fetching, logging and rendering are left out; the related tables
    (categories, gift cards, consoles) are parameters. */
module AdminPanel {
  import opened Common
  import opened Text

  /** The fields of a customer record the filters and updates read. */
  datatype Customer = Customer(
    id: string,
    firstName: Option<string>,
    lastName: Option<string>,
    fullName: string,
    whatsappNumber: string,
    parish: Option<string>,
    gender: Option<string>,
    phoneVerified: Option<bool>)

  /** A `customer_gift_cards` row. */
  datatype GiftCard = GiftCard(id: string, customerId: string, giftCardType: string, username: Option<string>)

  /** A category or console row: the customer it belongs to and its value. */
  datatype Tag = Tag(customerId: string, value: string)

  /** The loaded related tables. */
  datatype Related = Related(categories: seq<Tag>, giftCards: seq<GiftCard>, consoles: seq<Tag>)

  /** The six select filters; `"all"` switches a filter off. */
  datatype Filters = Filters(
    category: string, giftCard: string, console: string,
    parish: string, gender: string, phoneVerified: string)

  const All: string := "all"
  const NullUsernames: string := "null_usernames"

  predicate AllOff(f: Filters)
  {
    f.category == All && f.giftCard == All && f.console == All
    && f.parish == All && f.gender == All && f.phoneVerified == All
  }

  /** JavaScript truthiness of an optional string: present and non-empty. */
  predicate Truthy(o: Option<string>) { o.Some? && o.value != "" }

  // ----- Search -----

  /** `name.toLowerCase().includes(term.toLowerCase())`. */
  predicate NameMatches(name: string, term: string)
  {
    Contains(Lower(name), Lower(term))
  }

  /** The search test shared by the list and the export: case-insensitive on the
      names, case-sensitive on the WhatsApp number. */
  predicate MatchesSearch(c: Customer, term: string)
  {
    || NameMatches(c.fullName, term)
    || (Truthy(c.firstName) && NameMatches(c.firstName.value, term))
    || (Truthy(c.lastName) && NameMatches(c.lastName.value, term))
    || Contains(c.whatsappNumber, term)
  }

  /** An empty search term matches every customer. */
  lemma EmptyTermMatchesAll(c: Customer)
    ensures MatchesSearch(c, "")
  {
    assert Lower("") == "";
    ContainsEmpty(Lower(c.fullName));
  }

  lemma LowerOfUpper(s: string)
    ensures Lower(Upper(s)) == Lower(s)
  {
    forall i | 0 <= i < |s|
      ensures Lower(Upper(s))[i] == Lower(s)[i]
    {
      var c := s[i];
      if IsLowerLetter(c) {
        assert IsUpperLetter(ToUpper(c));
      }
    }
  }

  /** Changing the case of a name or of the term never changes whether the name matches. */
  lemma NameSearchIgnoresCase(name: string, term: string)
    ensures NameMatches(Upper(name), term) == NameMatches(name, term)
    ensures NameMatches(name, Upper(term)) == NameMatches(name, term)
  {
    LowerOfUpper(name);
    LowerOfUpper(term);
  }

  // ----- The related rows of one customer -----

  /** `tags.filter(t => t.customer_id === id).map(t => t.value)`. */
  function ValuesOf(tags: seq<Tag>, id: string): (vs: seq<string>)
    ensures forall v :: v in vs <==> exists k :: 0 <= k < |tags| && tags[k].customerId == id && tags[k].value == v
  {
    if tags == [] then []
    else
      var rest := ValuesOf(tags[1..], id);
      assert forall k :: 0 < k < |tags| ==> tags[k] == tags[1..][k - 1];
      (if tags[0].customerId == id then [tags[0].value] else []) + rest
  }

  /** `giftCards.filter(gc => gc.customer_id === id)`. */
  function CardsOf(cards: seq<GiftCard>, id: string): (r: seq<GiftCard>)
    ensures forall g :: g in r <==> g in cards && g.customerId == id
  {
    Filter(cards, (g: GiftCard) => g.customerId == id)
  }

  /** `cards.map(gc => gc.gift_card_type)`. */
  function TypesOf(cards: seq<GiftCard>): (ts: seq<string>)
    ensures forall t :: t in ts <==> exists k :: 0 <= k < |cards| && cards[k].giftCardType == t
  {
    var ts := seq(|cards|, k requires 0 <= k < |cards| => cards[k].giftCardType);
    assert forall k :: 0 <= k < |cards| ==> ts[k] == cards[k].giftCardType;
    ts
  }

  // ----- The reference reading of both filters -----

  predicate HasTag(tags: seq<Tag>, id: string, v: string)
  {
    exists k :: 0 <= k < |tags| && tags[k].customerId == id && tags[k].value == v
  }

  predicate HasCardType(cards: seq<GiftCard>, id: string, t: string)
  {
    exists k :: 0 <= k < |cards| && cards[k].customerId == id && cards[k].giftCardType == t
  }

  /** The customer owns a gift card whose username is missing or empty. */
  predicate HasNullUsername(cards: seq<GiftCard>, id: string)
  {
    exists k :: 0 <= k < |cards| && cards[k].customerId == id && !Truthy(cards[k].username)
  }

  /** The gift-card filter: the special `null_usernames` value, or a card type. */
  predicate GiftCardRule(rel: Related, id: string, choice: string)
  {
    if choice == NullUsernames then HasNullUsername(rel.giftCards, id)
    else HasCardType(rel.giftCards, id, choice)
  }

  /** The list's verification filter: `verified` wants `true`, any other choice wants
      `false`; an unset flag satisfies neither. */
  predicate ListPhoneRule(choice: string, flag: Option<bool>)
  {
    choice == All || (if choice == "verified" then flag == Some(true) else flag == Some(false))
  }

  /** The export's verification filter: `verified` wants `true`, `not_verified` wants
      anything else, and every other choice keeps nobody. */
  predicate ExportPhoneRule(choice: string, flag: Option<bool>)
  {
    || choice == All
    || (choice == "verified" && flag == Some(true))
    || (choice == "not_verified" && flag != Some(true))
  }

  /** The attribute filters other than verification. */
  predicate AttributeFilters(c: Customer, f: Filters, rel: Related)
  {
    && (f.category == All || HasTag(rel.categories, c.id, f.category))
    && (f.giftCard == All || GiftCardRule(rel, c.id, f.giftCard))
    && (f.console == All || HasTag(rel.consoles, c.id, f.console))
    && (f.parish == All || c.parish == Some(f.parish))
    && (f.gender == All || c.gender == Some(f.gender))
  }

  /** A customer belongs in the list: the search matches and every active filter holds. */
  predicate Listed(c: Customer, term: string, f: Filters, rel: Related)
  {
    MatchesSearch(c, term) && AttributeFilters(c, f, rel) && ListPhoneRule(f.phoneVerified, c.phoneVerified)
  }

  /** A customer belongs in the export. */
  predicate Exported(c: Customer, term: string, f: Filters, rel: Related)
  {
    MatchesSearch(c, term) && AttributeFilters(c, f, rel) && ExportPhoneRule(f.phoneVerified, c.phoneVerified)
  }

  // ----- The filters as written -----

  /** The callback of `filteredCustomers`, with its all-`all` shortcut. */
  function ListCallback(c: Customer, term: string, f: Filters, rel: Related): (keep: bool)
  {
    var matchesSearch := MatchesSearch(c, term);
    if AllOff(f) then matchesSearch
    else
      var categories := ValuesOf(rel.categories, c.id);
      var cards := CardsOf(rel.giftCards, c.id);
      var consoles := ValuesOf(rel.consoles, c.id);
      var matchesFilters :=
        && (f.category == All || f.category in categories)
        && (f.giftCard == All ||
              if f.giftCard == NullUsernames then exists g :: g in cards && !Truthy(g.username)
              else f.giftCard in TypesOf(cards))
        && (f.console == All || f.console in consoles)
        && (f.parish == All || c.parish == Some(f.parish))
        && (f.gender == All || c.gender == Some(f.gender))
        && (f.phoneVerified == All ||
              if f.phoneVerified == "verified" then c.phoneVerified == Some(true) else c.phoneVerified == Some(false));
      matchesSearch && matchesFilters
  }

  /** The callback reads each filter as its reference rule, and the shortcut agrees
      with the general branch. */
  lemma ListCallbackIsListed(c: Customer, term: string, f: Filters, rel: Related)
    ensures ListCallback(c, term, f, rel) == Listed(c, term, f, rel)
  {
    var cards := CardsOf(rel.giftCards, c.id);
    if HasCardType(rel.giftCards, c.id, f.giftCard) {
      var k :| 0 <= k < |rel.giftCards| && rel.giftCards[k].customerId == c.id && rel.giftCards[k].giftCardType == f.giftCard;
      assert rel.giftCards[k] in cards;
      var j :| 0 <= j < |cards| && cards[j] == rel.giftCards[k];
      assert f.giftCard in TypesOf(cards) by {
        assert TypesOf(cards)[j] == f.giftCard;
      }
    }
    if f.giftCard in TypesOf(cards) {
      var j :| 0 <= j < |cards| && cards[j].giftCardType == f.giftCard;
      assert cards[j] in rel.giftCards;
    }
    if HasNullUsername(rel.giftCards, c.id) {
      var k :| 0 <= k < |rel.giftCards| && rel.giftCards[k].customerId == c.id && !Truthy(rel.giftCards[k].username);
      assert rel.giftCards[k] in cards;
    }
  }

  /** `filteredCustomers`: exactly the listed customers, as an order-keeping selection. */
  function FilteredCustomers(customers: seq<Customer>, term: string, f: Filters, rel: Related): (r: seq<Customer>)
    ensures forall c :: c in r <==> c in customers && Listed(c, term, f, rel)
    ensures Subseq(r, customers)
  {
    var keep := c => ListCallback(c, term, f, rel);
    FilterSubseq(customers, keep);
    ListCallbackReadsListed(term, f, rel);
    Filter(customers, keep)
  }

  lemma ListCallbackReadsListed(term: string, f: Filters, rel: Related)
    ensures forall c :: ListCallback(c, term, f, rel) == Listed(c, term, f, rel)
  {
    forall c {
      ListCallbackIsListed(c, term, f, rel);
    }
  }

  /** The list is the reference filter over the customers, in their original order. */
  lemma FilteredIsListedInOrder(customers: seq<Customer>, term: string, f: Filters, rel: Related)
    ensures FilteredCustomers(customers, term, f, rel) == Filter(customers, c => Listed(c, term, f, rel))
  {
    ListCallbackReadsListed(term, f, rel);
    FilterSame(customers, c => ListCallback(c, term, f, rel), c => Listed(c, term, f, rel));
  }

  /** The export's callback, run only when some filter or the search is active. */
  function ExportCallback(c: Customer, term: string, f: Filters, rel: Related): (keep: bool)
  {
    var matchesSearch := term == "" || MatchesSearch(c, term);
    if !matchesSearch then false
    else
      var categories := ValuesOf(rel.categories, c.id);
      var cards := CardsOf(rel.giftCards, c.id);
      var consoles := ValuesOf(rel.consoles, c.id);
      var isVerified := c.phoneVerified == Some(true);
      && (f.category == All || f.category in categories)
      && (f.giftCard == All ||
            if f.giftCard == NullUsernames then exists g :: g in cards && !Truthy(g.username)
            else f.giftCard in TypesOf(cards))
      && (f.console == All || f.console in consoles)
      && (f.parish == All || c.parish == Some(f.parish))
      && (f.gender == All || c.gender == Some(f.gender))
      && (f.phoneVerified == All ||
            (f.phoneVerified == "verified" && isVerified) || (f.phoneVerified == "not_verified" && !isVerified))
  }

  lemma ExportCallbackIsExported(c: Customer, term: string, f: Filters, rel: Related)
    ensures ExportCallback(c, term, f, rel) == Exported(c, term, f, rel)
  {
    EmptyTermMatchesAll(c);
    var cards := CardsOf(rel.giftCards, c.id);
    if HasCardType(rel.giftCards, c.id, f.giftCard) {
      var k :| 0 <= k < |rel.giftCards| && rel.giftCards[k].customerId == c.id && rel.giftCards[k].giftCardType == f.giftCard;
      assert rel.giftCards[k] in cards;
      var j :| 0 <= j < |cards| && cards[j] == rel.giftCards[k];
      assert f.giftCard in TypesOf(cards) by {
        assert TypesOf(cards)[j] == f.giftCard;
      }
    }
    if f.giftCard in TypesOf(cards) {
      var j :| 0 <= j < |cards| && cards[j].giftCardType == f.giftCard;
      assert cards[j] in rel.giftCards;
    }
    if HasNullUsername(rel.giftCards, c.id) {
      var k :| 0 <= k < |rel.giftCards| && rel.giftCards[k].customerId == c.id && !Truthy(rel.giftCards[k].username);
      assert rel.giftCards[k] in cards;
    }
  }

  lemma ExportCallbackReadsExported(term: string, f: Filters, rel: Related)
    ensures forall c :: ExportCallback(c, term, f, rel) == Exported(c, term, f, rel)
  {
    forall c {
      ExportCallbackIsExported(c, term, f, rel);
    }
  }

  /** The customers the export writes: all of them when nothing is active, otherwise
      exactly the exported ones, in order. */
  function ExportedCustomers(customers: seq<Customer>, term: string, f: Filters, rel: Related): (r: seq<Customer>)
    ensures forall c :: c in r <==> c in customers && Exported(c, term, f, rel)
    ensures Subseq(r, customers)
  {
    ExportCallbackReadsExported(term, f, rel);
    if AllOff(f) && term == "" then
      SubseqRefl(customers);
      ExportAllOffKeepsAll(customers, term, f, rel);
      customers
    else
      var keep := c => ExportCallback(c, term, f, rel);
      FilterSubseq(customers, keep);
      Filter(customers, keep)
  }

  lemma ExportAllOffKeepsAll(customers: seq<Customer>, term: string, f: Filters, rel: Related)
    requires AllOff(f) && term == ""
    ensures forall c :: Exported(c, term, f, rel)
  {
    forall c {
      EmptyTermMatchesAll(c);
    }
  }

  /** Outside the verification filter the list and the export select the same
      customers, in the same order. */
  lemma ExportMatchesList(customers: seq<Customer>, term: string, f: Filters, rel: Related)
    requires f.phoneVerified == All || f.phoneVerified == "verified"
    ensures ExportedCustomers(customers, term, f, rel) == FilteredCustomers(customers, term, f, rel)
  {
    ExportCallbackReadsExported(term, f, rel);
    ListCallbackReadsListed(term, f, rel);
    FilteredIsListedInOrder(customers, term, f, rel);
    if AllOff(f) && term == "" {
      forall k | 0 <= k < |customers|
        ensures Listed(customers[k], term, f, rel)
      {
        EmptyTermMatchesAll(customers[k]);
      }
      FilterKeepsAll(customers, c => Listed(c, term, f, rel));
    } else {
      FilterSame(customers, c => ExportCallback(c, term, f, rel), c => Listed(c, term, f, rel));
    }
  }

  /** The two verification filters disagree: the list never shows a customer whose
      flag is unset once the filter is active, while the export's `not_verified`
      includes such customers; and the option the select offers as `unverified`
      keeps customers with a `false` flag in the list but nobody in the export. */
  lemma VerificationFiltersDiverge(customers: seq<Customer>, term: string, f: Filters, rel: Related)
    requires f.phoneVerified == "unverified"
    ensures ExportedCustomers(customers, term, f, rel) == []
    ensures forall c :: c in FilteredCustomers(customers, term, f, rel) ==> c.phoneVerified == Some(false)
  {
    var r := ExportedCustomers(customers, term, f, rel);
    assert forall i :: 0 <= i < |r| ==> r[i] in r;
  }

  /** Once the verification filter is active, an unset flag keeps a customer out of the
      list, whereas `not_verified` exports the customer when everything else matches. */
  lemma UnsetVerificationFlag(c: Customer, term: string, f: Filters, rel: Related)
    requires c.phoneVerified.None?
    ensures f.phoneVerified != All ==> !Listed(c, term, f, rel)
    ensures (f.phoneVerified == "not_verified" && MatchesSearch(c, term) && AttributeFilters(c, f, rel))
              ==> Exported(c, term, f, rel)
  {
  }

  /** With only the `null_usernames` filter, the list holds exactly the customers who own
      a gift card with a missing or empty username. */
  lemma NullUsernameFilter(customers: seq<Customer>, rel: Related, c: Customer)
    ensures var f := Filters(All, NullUsernames, All, All, All, All);
            c in FilteredCustomers(customers, "", f, rel) <==>
              c in customers &&
              exists k :: 0 <= k < |rel.giftCards| && rel.giftCards[k].customerId == c.id &&
                (rel.giftCards[k].username.None? || rel.giftCards[k].username == Some(""))
  {
    EmptyTermMatchesAll(c);
  }

  // ----- Gift-card names -----

  /** The display names the panel knows. */
  const GiftCardNames: map<string, string> := map[
    "amazon" := "Amazon", "itunes" := "Apple iTunes", "fortnite" := "Fortnite V-Bucks",
    "freefire" := "FreeFire Diamonds", "xbox" := "Microsoft XBOX", "nintendo" := "Nintendo eShop",
    "pubg" := "PUBG UC", "playstation" := "PlayStation Network", "riot" := "RIOT Points",
    "roblox" := "Roblox", "steam" := "Steam", "wizard101" := "Wizard 101"]

  /** `getGiftCardDisplayName`: the known name, or the id itself (`|| giftCardType`). */
  function DisplayName(giftCardType: string): (name: string)
    ensures giftCardType in GiftCardNames ==> name == GiftCardNames[giftCardType]
    ensures giftCardType !in GiftCardNames ==> name == giftCardType
  {
    if giftCardType in GiftCardNames && GiftCardNames[giftCardType] != "" then GiftCardNames[giftCardType]
    else giftCardType
  }

  /** No known id is its own display name, so the name equals the id exactly for
      unknown ids. */
  lemma DisplayNameIsIdIffUnknown(giftCardType: string)
    ensures DisplayName(giftCardType) == giftCardType <==> giftCardType !in GiftCardNames
  {
    if giftCardType in GiftCardNames {
      var n := GiftCardNames[giftCardType];
      assert n != giftCardType by {
        assert n[0] != giftCardType[0] || |n| != |giftCardType|;
      }
    }
  }

  /** The names do not identify the card: an unknown id spelled like a display name
      shows the same text as the known id. */
  lemma DisplayNameNotInjective()
    ensures DisplayName("amazon") == DisplayName("Amazon")
  {
    assert "Amazon" !in GiftCardNames by {
      assert "Amazon"[0] == 'A';
    }
  }

  // ----- Gift cards awaiting a username, five per page -----

  const ItemsPerPage: int := 5

  /** `giftCards.filter(gc => !gc.username)`. */
  function NullUsernameCards(cards: seq<GiftCard>): (r: seq<GiftCard>)
    ensures forall g :: g in r <==> g in cards && !Truthy(g.username)
    ensures Subseq(r, cards)
  {
    FilterSubseq(cards, (g: GiftCard) => !Truthy(g.username));
    Filter(cards, (g: GiftCard) => !Truthy(g.username))
  }

  /** `Math.ceil(n / itemsPerPage)`. */
  function TotalPages(n: nat): (t: nat)
    ensures n == 0 <==> t == 0
    ensures n > 0 ==> (t - 1) * ItemsPerPage < n <= t * ItemsPerPage
  {
    (n + ItemsPerPage - 1) / ItemsPerPage
  }

  function Max(a: int, b: int): int { if a <= b then b else a }

  function Min(a: int, b: int): int { if a <= b then a else b }

  /** The index `Array.prototype.slice` uses for an argument: negative counts from the end. */
  function SliceIndex(i: int, len: nat): (k: nat)
    ensures k <= len
  {
    if i < 0 then Max(len + i, 0) else Min(i, len)
  }

  /** `items.slice(start, end)`. */
  function Slice<T>(items: seq<T>, start: int, end: int): seq<T>
  {
    var a := SliceIndex(start, |items|);
    var b := SliceIndex(end, |items|);
    if a <= b then items[a..b] else []
  }

  /** The items shown on `page`. A page within range shows the next at most five
      items after the earlier pages'; a page past the end shows nothing. */
  function PageItems<T>(items: seq<T>, page: int): (r: seq<T>)
    ensures 1 <= page <= TotalPages(|items|) ==>
              && 1 <= |r| <= ItemsPerPage
              && |r| == Min(ItemsPerPage, |items| - (page - 1) * ItemsPerPage)
              && forall k :: 0 <= k < |r| ==> r[k] == items[(page - 1) * ItemsPerPage + k]
    ensures page > TotalPages(|items|) ==> r == []
  {
    var start := (page - 1) * ItemsPerPage;
    Slice(items, start, start + ItemsPerPage)
  }

  /** The pages 1 to `k` one after another. */
  function PagesUpTo<T>(items: seq<T>, k: nat): seq<T>
  {
    if k == 0 then [] else PagesUpTo(items, k - 1) + PageItems(items, k)
  }

  lemma {:induction false} PagesUpToPrefix<T>(items: seq<T>, k: nat)
    requires k <= TotalPages(|items|)
    ensures PagesUpTo(items, k) == items[..Min(k * ItemsPerPage, |items|)]
  {
    if k > 0 {
      PagesUpToPrefix(items, k - 1);
      var a := (k - 1) * ItemsPerPage;
      var b := Min(k * ItemsPerPage, |items|);
      var page := PageItems(items, k);
      assert page == items[a..b];
      assert items[..a] + items[a..b] == items[..b];
    }
  }

  /** The pages partition the list: read one after another they give every item once,
      in order. */
  lemma PagesPartition<T>(items: seq<T>)
    ensures PagesUpTo(items, TotalPages(|items|)) == items
  {
    PagesUpToPrefix(items, TotalPages(|items|));
    assert items[..|items|] == items;
  }

  /** What the pending-username pager sees: the page number, the length of the
      gift-card list and how many of its cards still lack a username. */
  datatype Pager = Pager(page: int, length: nat, pending: nat)

  /** Where the panel's page number can move. */
  datatype PageEvent =
    | FirstClicked                            // the First button
    | PrevClicked                             // the Previous button
    | NextClicked                             // the Next button
    | LastClicked                             // the Last button
    | CardsChanged(length: nat, pending: nat) // the gift-card list was replaced

  /** The render-time reset (lines 846-849): a page past the last one goes back to 1
      while there are pending cards. With none, the block renders nothing (line 837)
      and the page is left as it is. */
  function Render(p: Pager): (r: Pager)
    ensures r.length == p.length && r.pending == p.pending
    ensures r.page == (if p.page > TotalPages(p.pending) && TotalPages(p.pending) > 0 then 1 else p.page)
  {
    if p.page > TotalPages(p.pending) && TotalPages(p.pending) > 0 then p.(page := 1) else p
  }

  /** One event and the render after it. The buttons exist only when there is more
      than one page. A new list resets the page to 1 only when its length differs
      (the effect on `giftCards.length`, lines 103-105); saving a username keeps the
      length and changes only the pending count, so the page is then kept unless the
      render-time reset catches it. */
  function PageStep(p: Pager, e: PageEvent): (r: Pager)
  {
    var total := TotalPages(p.pending);
    match e {
      case FirstClicked => Render(p.(page := if total > 1 then 1 else p.page))
      case PrevClicked => Render(p.(page := if total > 1 then Max(1, p.page - 1) else p.page))
      case NextClicked => Render(p.(page := if total > 1 then Min(total, p.page + 1) else p.page))
      case LastClicked => Render(p.(page := if total > 1 then total else p.page))
      case CardsChanged(len, n) => Render(Pager(if len != p.length then 1 else p.page, len, n))
    }
  }

  /** The page number is at least 1 and, while there are pending cards, at most the
      last page. */
  predicate PageInRange(p: Pager)
  {
    1 <= p.page && (p.pending == 0 || p.page <= TotalPages(p.pending))
  }

  /** After every event and its render the page is in range: the buttons never leave
      the range, and a list change that leaves the page past the end is caught by the
      render-time reset. */
  lemma PageStepKeepsRange(p: Pager, e: PageEvent)
    requires 1 <= p.page
    ensures PageInRange(PageStep(p, e))
    ensures e.CardsChanged? ==> PageStep(p, e).length == e.length && PageStep(p, e).pending == e.pending
    ensures !e.CardsChanged? ==> PageStep(p, e).length == p.length && PageStep(p, e).pending == p.pending
  {
  }

  /** A change of length always starts again from page 1. */
  lemma LengthChangeResetsPage(p: Pager, len: nat, n: nat)
    requires len != p.length
    ensures PageStep(p, CardsChanged(len, n)).page == 1
  {
  }

  /** Saving a username keeps the length: the page is kept whenever it still exists,
      or when no pending card is left, and the render-time reset sends it to 1
      otherwise. */
  lemma CountOnlyChange(p: Pager, n: nat)
    ensures var r := PageStep(p, CardsChanged(p.length, n));
            && (n == 0 || p.page <= TotalPages(n) ==> r.page == p.page)
            && (n > 0 && p.page > TotalPages(n) ==> r.page == 1)
  {
  }

  /** Eleven pending cards on page 2, one username filled in: the page stays 2. On
      page 3 the same save leaves the page past the end, and the render resets it. */
  lemma UsernameSaveExample()
    ensures PageStep(Pager(2, 20, 11), CardsChanged(20, 10)).page == 2
    ensures PageStep(Pager(3, 20, 11), CardsChanged(20, 10)).page == 1
    ensures PageStep(Pager(3, 20, 1), CardsChanged(20, 0)).page == 3
  {
    assert TotalPages(10) == 2;
  }

  /** With the pager shown, First and Last jump to the ends, Previous and Next move by
      one page without leaving them, and none of the buttons changes the list. */
  lemma PagerButtons(p: Pager)
    requires PageInRange(p) && TotalPages(p.pending) > 1
    ensures PageStep(p, FirstClicked) == p.(page := 1)
    ensures PageStep(p, LastClicked) == p.(page := TotalPages(p.pending))
    ensures PageStep(p, PrevClicked) == p.(page := if p.page == 1 then 1 else p.page - 1)
    ensures PageStep(p, NextClicked) == p.(page := if p.page == TotalPages(p.pending) then p.page else p.page + 1)
  {
  }

  function PageRun(p: Pager, events: seq<PageEvent>): (r: Pager)
    decreases |events|
  {
    if events == [] then p else PageRun(PageStep(p, events[0]), events[1..])
  }

  /** From any page of at least 1, any sequence of events leaves the page in range
      once rendered. */
  lemma {:induction false} PageRunKeepsRange(p: Pager, events: seq<PageEvent>)
    requires PageInRange(p)
    ensures PageInRange(PageRun(p, events))
    decreases |events|
  {
    if events != [] {
      PageStepKeepsRange(p, events[0]);
      PageRunKeepsRange(PageStep(p, events[0]), events[1..]);
    }
  }

  // ----- Local updates after a save -----

  /** `handleSaveCustomer`: after a successful update the record with the same id is
      replaced; on an error the list is kept. */
  function SaveCustomer(customers: seq<Customer>, updated: Customer, ok: bool): (r: seq<Customer>)
    ensures !ok ==> r == customers
    ensures |r| == |customers|
    ensures ok ==> forall i :: 0 <= i < |customers| ==>
              r[i] == (if customers[i].id == updated.id then updated else customers[i])
  {
    if ok then ReplaceById(customers, (c: Customer) => c.id, updated) else customers
  }

  /** `handleSaveGiftCard`: the same for gift cards. The local copy keeps the edited
      username as typed, although the stored one is `username || null`. */
  function SaveGiftCard(cards: seq<GiftCard>, updated: GiftCard, ok: bool): (r: seq<GiftCard>)
    ensures !ok ==> r == cards
    ensures |r| == |cards|
    ensures ok ==> forall i :: 0 <= i < |cards| ==>
              r[i] == (if cards[i].id == updated.id then updated else cards[i])
  {
    if ok then ReplaceById(cards, (g: GiftCard) => g.id, updated) else cards
  }

  /** Saving keeps every id in place, and saving the same record twice is the same as
      saving it once. */
  lemma SaveCustomerStable(customers: seq<Customer>, updated: Customer, ok: bool)
    ensures var r := SaveCustomer(customers, updated, ok);
            && (forall i :: 0 <= i < |r| ==> r[i].id == customers[i].id)
            && SaveCustomer(r, updated, ok) == r
  {
    var r := SaveCustomer(customers, updated, ok);
    var r2 := SaveCustomer(r, updated, ok);
    assert |r2| == |r|;
    forall i | 0 <= i < |r|
      ensures r2[i] == r[i] && r[i].id == customers[i].id
    {
    }
  }

  /** A save whose id matches a loaded record makes the edited record visible. */
  lemma SaveGiftCardVisible(cards: seq<GiftCard>, updated: GiftCard)
    requires exists i :: 0 <= i < |cards| && cards[i].id == updated.id
    ensures updated in SaveGiftCard(cards, updated, true)
    ensures forall g :: g in cards && g.id != updated.id ==> g in SaveGiftCard(cards, updated, true)
  {
    var r := SaveGiftCard(cards, updated, true);
    var i :| 0 <= i < |cards| && cards[i].id == updated.id;
    assert r[i] == updated;
    forall g | g in cards && g.id != updated.id
      ensures g in r
    {
      var j :| 0 <= j < |cards| && cards[j] == g;
      assert r[j] == g;
    }
  }
}
