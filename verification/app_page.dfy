/** Page selection in `AppContent` (frontend/app/page.jsx): which screen is
    shown for the auth state and the current page, and how the current page
    changes. */
module AppPage {

  datatype Screen =
    | Spinner
    | DeviceLimitScreen
    | LoginScreen
    | SignupScreen
    | CalculatorScreen
    | PricingScreen
    | DeviceManagementScreen
    | AddDevicesScreen
    | LandingScreen

  /** The screens that need a signed-in user. */
  predicate Protected(s: Screen)
  {
    s.CalculatorScreen? || s.DeviceManagementScreen? || s.AddDevicesScreen?
  }

  /** The if-chain of `AppContent`'s render. */
  function SelectScreen(loading: bool, hasUser: bool, deviceLimitReached: bool, page: string): (s: Screen)
    ensures loading <==> s == Spinner
    ensures !loading && deviceLimitReached && page == "calculator" ==> s == DeviceLimitScreen
    ensures Protected(s) ==> hasUser
  {
    if loading then Spinner
    else if deviceLimitReached && page == "calculator" then DeviceLimitScreen
    else if page == "login" then LoginScreen
    else if page == "signup" then SignupScreen
    else if page == "calculator" then (if !hasUser then LoginScreen else CalculatorScreen)
    else if page == "pricing" then PricingScreen
    else if page == "device-management" then (if !hasUser then LoginScreen else DeviceManagementScreen)
    else if page == "add-devices" then (if !hasUser then LoginScreen else AddDevicesScreen)
    else LandingScreen
  }

  /** The pages the chain names. */
  predicate KnownPage(page: string)
  {
    page == "login" || page == "signup" || page == "calculator" || page == "pricing" ||
    page == "device-management" || page == "add-devices"
  }

  /** Login, signup and pricing render the same with or without a user; a
      protected page without a user renders the login screen; an unknown
      page renders the landing screen. */
  lemma PublicAndProtectedPages(hasUser: bool, deviceLimitReached: bool, page: string)
    ensures (page == "login" || page == "signup" || page == "pricing") ==>
      SelectScreen(false, true, deviceLimitReached, page) ==
      SelectScreen(false, false, deviceLimitReached, page)
    ensures (page == "device-management" || page == "add-devices" ||
             (page == "calculator" && !deviceLimitReached)) ==>
      SelectScreen(false, false, deviceLimitReached, page) == LoginScreen
    ensures !KnownPage(page) ==> SelectScreen(false, hasUser, deviceLimitReached, page) == LandingScreen
  {
  }

  /** The redirect effect: once loading is over, a signed-in user on the
      landing page is moved to the calculator. */
  function AfterRedirect(loading: bool, hasUser: bool, page: string): (p: string)
    ensures !loading && hasUser && page == "landing" ==> p == "calculator"
    ensures !(!loading && hasUser && page == "landing") ==> p == page
  {
    if !loading && hasUser && page == "landing" then "calculator" else page
  }

  /** After the redirect a signed-in user never sees the landing screen on
      the landing page: it becomes the calculator or the device-limit
      screen. */
  lemma SignedInUserLeavesLanding(deviceLimitReached: bool)
    ensures var s := SelectScreen(false, true, deviceLimitReached, AfterRedirect(false, true, "landing"));
      s == CalculatorScreen || s == DeviceLimitScreen
  {
  }

  class AppContent {
    var currentPage: string

    constructor ()
      ensures currentPage == "landing"
    {
      currentPage := "landing";
    }

    /** `handleNavigate(page)`. */
    method HandleNavigate(page: string)
      modifies this
      ensures currentPage == page
    {
      currentPage := page;
    }

    /** The effect on `[user, loading, currentPage]`. */
    method RedirectEffect(loading: bool, hasUser: bool)
      modifies this
      ensures currentPage == AfterRedirect(loading, hasUser, old(currentPage))
    {
      if !loading && hasUser && currentPage == "landing" {
        currentPage := "calculator";
      }
    }
  }
}
