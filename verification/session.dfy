/** The session record a successful sign-in stores, and the check the sign-in page
    runs on load: a session younger than 24 hours sends the visitor straight on to
    the catalog. Times are integer milliseconds since the epoch. */
module Sessions {
  import opened Options

  datatype Session = Session(role: string, loginTime: int)

  const HourMillis: int := 60 * 60 * 1000
  const DayMillis: int := 24 * HourMillis

  /** The age of the session in hours, as the page computes it: elapsed milliseconds
      divided by the milliseconds in an hour, as a real number. */
  function HoursSinceLogin(s: Session, now: int): (r: real)
    ensures r * HourMillis as real == (now - s.loginTime) as real
    ensures r < 24.0 <==> now - s.loginTime < DayMillis
    ensures r >= 0.0 <==> now >= s.loginTime
  {
    (now - s.loginTime) as real / HourMillis as real
  }

  /** The redirect decision: there is a stored session, the current page is the
      sign-in page, and fewer than 24 hours have passed since the login time. */
  function ShouldAutoRedirect(stored: Option<Session>, onAuthPage: bool, now: int): (r: bool)
    ensures r <==> stored.Some? && onAuthPage && now - stored.value.loginTime < DayMillis
  {
    stored.Some? && onAuthPage && HoursSinceLogin(stored.value, now) < 24.0
  }

  /** Exactly 24 hours after login the session no longer redirects; one millisecond
      earlier it still does. */
  lemma TwentyFourHourBoundary(s: Session)
    ensures !ShouldAutoRedirect(Some(s), true, s.loginTime + DayMillis)
    ensures ShouldAutoRedirect(Some(s), true, s.loginTime + DayMillis - 1)
  {
  }

  /** A session that redirects now also redirects at any earlier moment. */
  lemma RedirectMonotone(s: Session, now: int, earlier: int)
    requires earlier <= now
    requires ShouldAutoRedirect(Some(s), true, now)
    ensures ShouldAutoRedirect(Some(s), true, earlier)
  {
  }
}
