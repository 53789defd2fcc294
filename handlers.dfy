/** The decisions taken by the search button and the newsletter form. A
    handler is modelled as the list of effects it produces, in order: a
    `Wait` stands for the `setTimeout` delay after which the remaining
    effects run. */
module Handlers {
  import opened Wrappers
  import opened Text
  import opened Email
  import opened Search
  import opened Notify

  datatype Effect =
    | ShowLoading
    | HideLoading
    | Wait(ms: nat)
    | Banner(notification: Notification)
    | ClearEmailInput

  /** The banners an effect list shows, in order. */
  function Notifications(effects: seq<Effect>): (ns: seq<Notification>)
    ensures |ns| <= |effects|
    ensures forall n :: n in ns <==> Banner(n) in effects
  {
    if effects == [] then []
    else
      var rest := Notifications(effects[1..]);
      assert forall e :: e in effects <==> e == effects[0] || e in effects[1..];
      match effects[0]
      case Banner(n) => [n] + rest
      case _ => rest
  }

  /** The banners of a concatenation are those of its parts, in order. */
  lemma {:induction false} NotificationsAppend(a: seq<Effect>, b: seq<Effect>)
    ensures Notifications(a + b) == Notifications(a) + Notifications(b)
    decreases |a|
  {
    if a == [] {
      assert a + b == b;
    } else {
      assert (a + b)[0] == a[0];
      assert (a + b)[1..] == a[1..] + b;
      NotificationsAppend(a[1..], b);
    }
  }

  /** `showLoading()`, the `setTimeout` delay, then `hideLoading()`. */
  function Loading(ms: nat): seq<Effect> {
    [ShowLoading, Wait(ms), HideLoading]
  }

  /** The loading overlay shows no banner. */
  lemma LoadingIsQuiet(ms: nat)
    ensures Notifications(Loading(ms)) == []
  {
    assert Notifications([HideLoading]) == [] by {
      assert [HideLoading][1..] == [];
    }
    assert Notifications([Wait(ms), HideLoading]) == [] by {
      assert [Wait(ms), HideLoading][1..] == [HideLoading];
    }
    assert Loading(ms)[1..] == [Wait(ms), HideLoading];
  }

  /** The banners of the effect-list shapes the handlers produce: one
      immediate banner, or a delayed banner after the loading overlay. */
  lemma NotificationsOfShapes(n: Notification, ms: nat)
    ensures Notifications([Banner(n)]) == [n]
    ensures Notifications(Loading(ms) + [Banner(n)]) == [n]
    ensures Notifications(Loading(ms) + [Banner(n), ClearEmailInput]) == [n]
  {
    assert [Banner(n)][1..] == [];
    var b := [Banner(n), ClearEmailInput];
    assert b[1..] == [ClearEmailInput] && b[1..][1..] == [];
    LoadingIsQuiet(ms);
    NotificationsAppend(Loading(ms), [Banner(n)]);
    NotificationsAppend(Loading(ms), b);
  }

  const SearchLatency: nat := 1500
  const SubscribeLatency: nat := 1000

  const EmptySearchWarning: string := "Por favor, ingresa un término de búsqueda o selecciona un filtro"
  const InvalidEmailError: string := "Por favor, ingresa un email válido"
  const SubscribedMessage: string :=
    "¡Gracias! Te has suscrito correctamente. Recibirás las mejores oportunidades en tu email."

  // ---------------------------------------------------------------------
  // Search
  // ---------------------------------------------------------------------

  /** `searchTerm || filters.some(filter => filter !== 'todas')` */
  predicate SearchRequested(term: string, filters: seq<string>) {
    term != "" || exists i :: 0 <= i < |filters| && filters[i] != MatchAll
  }

  const ResultPrefix: string := "Se encontraron "
  const ResultInfix: string := " resultados para \""

  /** The success message of `showSearchResults`. */
  function ResultMessage(term: string, count: nat): string {
    ResultPrefix + Decimal(count) + ResultInfix + term + "\""
  }

  /** The count a result message reports: the numeral after the prefix,
      which must be followed by the rest of the fixed text. */
  function ReportedCount(message: string): Option<nat> {
    if |message| < |ResultPrefix| || message[..|ResultPrefix|] != ResultPrefix then None
    else
      var rest := message[|ResultPrefix|..];
      var digits := LeadingDigits(rest);
      var tail := rest[|digits|..];
      if digits != [] && |ResultInfix| <= |tail| && tail[..|ResultInfix|] == ResultInfix
      then Some(ParseDecimal(digits))
      else None
  }

  /** A message made of the prefix, a numeral and text that starts with
      the infix reports the numeral's value. */
  lemma ReportedNumeral(d: string, after: string)
    requires d != [] && AllDigits(d)
    requires |ResultInfix| <= |after| && after[..|ResultInfix|] == ResultInfix
    ensures ReportedCount(ResultPrefix + (d + after)) == Some(ParseDecimal(d))
  {
    var m := ResultPrefix + (d + after);
    assert m[..|ResultPrefix|] == ResultPrefix;
    assert m[|ResultPrefix|..] == d + after;
    assert after[0] == ' ';
    LeadingDigitsOfNumeral(d, after);
    assert (d + after)[|d|..] == after;
  }

  /** A result message reports the count it was built from. */
  lemma ResultMessageRoundTrip(term: string, count: nat)
    ensures ReportedCount(ResultMessage(term, count)) == Some(count)
  {
    var d := Decimal(count);
    var after := ResultInfix + (term + "\"");
    assert after[..|ResultInfix|] == ResultInfix;
    assert ResultMessage(term, count) == ResultPrefix + (d + after);
    ReportedNumeral(d, after);
    DecimalRoundTrip(count);
  }

  /** The effects of a refused search: one warning banner, at once. */
  const SearchRefused: seq<Effect> := [Banner(Show(EmptySearchWarning, Some("warning")))]

  /** The effects of a search that runs: the loading overlay for the mock
      latency, then the success banner with `message`. */
  function SearchRan(message: string): seq<Effect> {
    Loading(SearchLatency) + [Banner(Show(message, Some("success")))]
  }

  /** The click handler of `#searchBtn` on the input's value and the values
      of the filter selects. */
  function OnSearchClick(input: string, filters: seq<string>): seq<Effect> {
    var term := Trim(input);
    if SearchRequested(term, filters) then
      SearchRan(ResultMessage(term, |GenerateMockResults(term, filters)|))
    else
      SearchRefused
  }

  /** The two outcomes of a click, whatever the input: the loading overlay
      and one `success` banner, or no overlay and one `warning` banner. */
  lemma SearchOutcomes(message: string)
    ensures ShowLoading in SearchRan(message) && ShowLoading !in SearchRefused
    ensures Notifications(SearchRan(message)) == [Notification(message, "success")]
    ensures Notifications(SearchRefused) == [Notification(EmptySearchWarning, "warning")]
    ensures SearchRefused == [Banner(Notification(EmptySearchWarning, "warning"))]
    ensures SearchRan(message) ==
              [ShowLoading, Wait(SearchLatency), HideLoading, Banner(Notification(message, "success"))]
  {
    NotificationsOfShapes(Show(message, Some("success")), SearchLatency);
    NotificationsOfShapes(Show(EmptySearchWarning, Some("warning")), SearchLatency);
    assert SearchRan(message)[0] == ShowLoading;
    assert SearchRefused[0] != ShowLoading;
  }

  /** Enter in the search input clicks the button; other keys do nothing. */
  function OnSearchKey(key: string, input: string, filters: seq<string>): seq<Effect> {
    if key == "Enter" then OnSearchClick(input, filters) else []
  }

  /** Enter runs the click handler; any other key has no effect. */
  lemma SearchKey(key: string, input: string, filters: seq<string>)
    ensures key == "Enter" ==> OnSearchKey(key, input, filters) == OnSearchClick(input, filters)
    ensures key != "Enter" ==> OnSearchKey(key, input, filters) == []
  {
  }

  /** A search starts exactly when the trimmed term is non-empty or some
      filter is not `todas`. It then shows the overlay, waits the mock
      latency, hides the overlay and only then shows the result banner;
      otherwise the only effect is one warning. */
  lemma SearchGate(input: string, filters: seq<string>)
    ensures ShowLoading in OnSearchClick(input, filters) <==>
              Trim(input) != "" || exists i :: 0 <= i < |filters| && filters[i] != MatchAll
    ensures !SearchRequested(Trim(input), filters) ==>
              OnSearchClick(input, filters) == [Banner(Notification(EmptySearchWarning, "warning"))]
    ensures SearchRequested(Trim(input), filters) ==>
              OnSearchClick(input, filters) ==
                [ShowLoading, Wait(SearchLatency), HideLoading,
                 Banner(Notification(ResultMessage(Trim(input), |GenerateMockResults(Trim(input), filters)|), "success"))]
  {
    var term := Trim(input);
    var message := ResultMessage(term, |GenerateMockResults(term, filters)|);
    SearchOutcomes(message);
    if SearchRequested(term, filters) {
      assert OnSearchClick(input, filters) == SearchRan(message);
    } else {
      assert OnSearchClick(input, filters) == SearchRefused;
    }
  }

  /** Said of the raw input: the search is refused exactly when the input is
      all whitespace and every filter is `todas`. */
  lemma SearchRefusedIff(input: string, filters: seq<string>)
    ensures !SearchRequested(Trim(input), filters) <==>
              AllWhitespace(input) && forall i :: 0 <= i < |filters| ==> filters[i] == MatchAll
  {
    TrimEmptyIff(input);
  }

  /** A click shows exactly one banner: `success` when the search ran,
      `warning` when it was refused. */
  lemma SearchNotifiesOnce(input: string, filters: seq<string>)
    ensures |Notifications(OnSearchClick(input, filters))| == 1
    ensures Notifications(OnSearchClick(input, filters))[0].kind ==
              if SearchRequested(Trim(input), filters) then "success" else "warning"
  {
    var term := Trim(input);
    var message := ResultMessage(term, |GenerateMockResults(term, filters)|);
    SearchOutcomes(message);
    assert OnSearchClick(input, filters) == if SearchRequested(term, filters) then SearchRan(message) else SearchRefused;
  }

  /** The count in the success banner is the number of records the mock
      provider returns for the trimmed term and the filters. */
  lemma SearchReportsResultCount(input: string, filters: seq<string>)
    requires SearchRequested(Trim(input), filters)
    ensures ReportedCount(Notifications(OnSearchClick(input, filters))[0].message) ==
              Some(|GenerateMockResults(Trim(input), filters)|)
  {
    var term := Trim(input);
    var n := |GenerateMockResults(term, filters)|;
    SearchOutcomes(ResultMessage(term, n));
    assert OnSearchClick(input, filters) == SearchRan(ResultMessage(term, n));
    ResultMessageRoundTrip(term, n);
  }

  /** The filter `tecnologia` alone starts a search that reports 2 results. */
  lemma TecnologiaSearchReportsTwo()
    ensures ReportedCount(Notifications(OnSearchClick("", ["tecnologia"]))[0].message) == Some(2)
  {
    assert Trim("") == "";
    assert ["tecnologia"][0] != MatchAll;
    SearchReportsResultCount("", ["tecnologia"]);
    TecnologiaFilter();
  }

  // ---------------------------------------------------------------------
  // Newsletter
  // ---------------------------------------------------------------------

  /** The effects of a refused address: one error banner, at once. */
  const SubscriptionRefused: seq<Effect> := [Banner(Show(InvalidEmailError, Some("error")))]

  /** The effects of an accepted address: the loading overlay for the mock
      latency, the success banner, then the input is cleared. */
  const SubscriptionDone: seq<Effect> :=
    Loading(SubscribeLatency) + [Banner(Show(SubscribedMessage, Some("success"))), ClearEmailInput]

  /** The submit handler of `#newsletterForm` on the email input's value. */
  function OnNewsletterSubmit(input: string): seq<Effect> {
    if IsValidEmail(Trim(input)) then SubscriptionDone else SubscriptionRefused
  }

  /** The email input's value once the effects have run. */
  function EmailInputAfter(input: string, effects: seq<Effect>): string {
    if ClearEmailInput in effects then "" else input
  }

  /** The two outcomes of a submit, whatever the input. */
  lemma SubscriptionOutcomes()
    ensures Notifications(SubscriptionRefused) == [Notification(InvalidEmailError, "error")]
    ensures ShowLoading !in SubscriptionRefused && ClearEmailInput !in SubscriptionRefused
    ensures Notifications(SubscriptionDone) == [Notification(SubscribedMessage, "success")]
    ensures ShowLoading in SubscriptionDone && ClearEmailInput in SubscriptionDone
    ensures SubscriptionRefused == [Banner(Notification(InvalidEmailError, "error"))]
    ensures SubscriptionDone ==
              [ShowLoading, Wait(SubscribeLatency), HideLoading,
               Banner(Notification(SubscribedMessage, "success")), ClearEmailInput]
  {
    NotificationsOfShapes(Show(InvalidEmailError, Some("error")), SubscribeLatency);
    NotificationsOfShapes(Show(SubscribedMessage, Some("success")), SubscribeLatency);
    assert |SubscriptionRefused| == 1;
    assert SubscriptionRefused[0] != ShowLoading && SubscriptionRefused[0] != ClearEmailInput;
    assert SubscriptionDone[0] == ShowLoading && SubscriptionDone[4] == ClearEmailInput;
  }

  /** A malformed address: exactly one `error` banner, at once, no loading
      overlay, and the input keeps what the user typed. */
  lemma NewsletterRejects(input: string)
    requires !IsValidEmail(Trim(input))
    ensures OnNewsletterSubmit(input) == [Banner(Notification(InvalidEmailError, "error"))]
    ensures Notifications(OnNewsletterSubmit(input)) == [Notification(InvalidEmailError, "error")]
    ensures ShowLoading !in OnNewsletterSubmit(input)
    ensures EmailInputAfter(input, OnNewsletterSubmit(input)) == input
  {
    SubscriptionOutcomes();
    assert OnNewsletterSubmit(input) == SubscriptionRefused;
  }

  /** A well-formed address: the overlay is shown, the mock latency passes,
      the overlay is hidden, and only then are the one `success` banner shown
      and the input cleared. */
  lemma NewsletterAccepts(input: string)
    requires IsValidEmail(Trim(input))
    ensures OnNewsletterSubmit(input) ==
              [ShowLoading, Wait(SubscribeLatency), HideLoading,
               Banner(Notification(SubscribedMessage, "success")), ClearEmailInput]
    ensures Notifications(OnNewsletterSubmit(input)) == [Notification(SubscribedMessage, "success")]
    ensures ShowLoading in OnNewsletterSubmit(input)
    ensures EmailInputAfter(input, OnNewsletterSubmit(input)) == ""
  {
    SubscriptionOutcomes();
    assert OnNewsletterSubmit(input) == SubscriptionDone;
  }

  /** `not-an-email` is refused and kept. */
  lemma NewsletterRejectsExample()
    ensures Notifications(OnNewsletterSubmit("not-an-email")) == [Notification(InvalidEmailError, "error")]
    ensures EmailInputAfter("not-an-email", OnNewsletterSubmit("not-an-email")) == "not-an-email"
  {
    var bad := "not-an-email";
    assert bad[0] == 'n' && bad[|bad| - 1] == 'l';
    TrimUnpadded(bad);
    RejectsPlainWord();
    NewsletterRejects(bad);
  }

  /** A well-formed address with blanks typed around it is accepted and
      cleared as well: the handler validates the trimmed value. */
  lemma NewsletterAcceptsPadded(address: string, before: string, after: string)
    requires IsValidEmail(address)
    requires AllWhitespace(before) && AllWhitespace(after)
    ensures Notifications(OnNewsletterSubmit(before + address + after)) == [Notification(SubscribedMessage, "success")]
    ensures EmailInputAfter(before + address + after, OnNewsletterSubmit(before + address + after)) == ""
  {
    ValidEmailUntrimmed(address);
    TrimPadded(before, address, after);
    NewsletterAccepts(before + address + after);
  }

  /** A valid address has no whitespace to trim. */
  lemma ValidEmailUntrimmed(address: string)
    requires IsValidEmail(address)
    ensures address != [] && !IsJsWhitespace(address[0]) && !IsJsWhitespace(address[|address| - 1])
  {
    if IsJsWhitespace(address[0]) {
      RejectsWhitespace(address, 0);
    }
    if IsJsWhitespace(address[|address| - 1]) {
      RejectsWhitespace(address, |address| - 1);
    }
  }

  /** A valid address typed without blanks is accepted and cleared. */
  lemma NewsletterAcceptsUntrimmed(address: string)
    requires IsValidEmail(address)
    ensures Notifications(OnNewsletterSubmit(address)) == [Notification(SubscribedMessage, "success")]
    ensures EmailInputAfter(address, OnNewsletterSubmit(address)) == ""
  {
    NewsletterAcceptsPadded(address, [], []);
    assert [] + address + [] == address;
  }

  /** `user@example.com` is accepted and cleared. */
  lemma NewsletterAcceptsExample()
    ensures Notifications(OnNewsletterSubmit("user@example.com")) == [Notification(SubscribedMessage, "success")]
    ensures EmailInputAfter("user@example.com", OnNewsletterSubmit("user@example.com")) == ""
  {
    AcceptsUserAddress();
    NewsletterAcceptsUntrimmed("user@example.com");
  }
}
