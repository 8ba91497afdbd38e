/** The post-success page (src/app/post/success/page.tsx): the trick name
    it shows and the countdown that sends the user home. */
module PostSuccess {
  import opened Common

  const DefaultTrickName: string := "新しい技"
  const InitialCountdown: int := 5
  const HomeRoute: string := "/"

  /** The `name` query parameter, or the default name when it is missing or empty. */
  function TrickName(nameParam: Option<string>): (r: string)
    ensures r != ""
    ensures nameParam.Some? && nameParam.value != "" ==> r == nameParam.value
    ensures nameParam.None? || nameParam.value == "" ==> r == DefaultTrickName
  {
    OrElse(nameParam, DefaultTrickName)
  }

  /** The countdown, whether its interval is still running, and how many
      times the page has been sent home. */
  datatype Countdown = Countdown(count: int, running: bool, redirects: nat)

  const Initial: Countdown := Countdown(InitialCountdown, true, 0)

  /** One interval tick: the state updater counts down while the previous value
      is above one; at one or below it stops the interval, sends the page home
      and yields 0. A stopped interval no longer ticks. */
  function Tick(s: Countdown): (r: Countdown)
    ensures !s.running ==> r == s
    ensures s.running && s.count > 1 ==> r == Countdown(s.count - 1, true, s.redirects)
    ensures s.running && s.count <= 1 ==> r == Countdown(0, false, s.redirects + 1)
    ensures s.count >= 0 ==> r.count >= 0
  {
    if !s.running then s
    else if s.count <= 1 then Countdown(0, false, s.redirects + 1)
    else s.(count := s.count - 1)
  }

  /** `n` ticks of the interval. */
  function Run(s: Countdown, n: nat): Countdown
    decreases n
  {
    if n == 0 then s else Run(Tick(s), n - 1)
  }

  /** From a running countdown at `c`, the first `c - 1` ticks count down, tick
      number `c` reaches 0 and sends the page home, and later ticks change nothing. */
  lemma {:induction false} RunFrom(c: int, redirects: nat, n: nat)
    requires c >= 1
    ensures Run(Countdown(c, true, redirects), n)
            == if n < c then Countdown(c - n, true, redirects) else Countdown(0, false, redirects + 1)
  {
    if n > 0 {
      if c == 1 {
        Stopped(Countdown(0, false, redirects + 1), n - 1);
      } else {
        RunFrom(c - 1, redirects, n - 1);
      }
    }
  }

  lemma {:induction false} Stopped(s: Countdown, n: nat)
    requires !s.running
    ensures Run(s, n) == s
    decreases n
  {
    if n > 0 {
      Stopped(Tick(s), n - 1);
    }
  }

  /** The page counts 5, 4, 3, 2, 1, reaches 0 on the fifth tick and is sent home exactly once. */
  lemma CountdownSendsHomeOnce(n: nat)
    ensures n < 5 ==> Run(Initial, n) == Countdown(5 - n, true, 0)
    ensures n >= 5 ==> Run(Initial, n) == Countdown(0, false, 1)
  {
    RunFrom(InitialCountdown, 0, n);
  }

  /** No sequence of ticks from a non-negative count makes it negative. */
  lemma {:induction false} CountNeverNegative(s: Countdown, n: nat)
    requires s.count >= 0
    ensures Run(s, n).count >= 0
    decreases n
  {
    if n > 0 {
      CountNeverNegative(Tick(s), n - 1);
    }
  }
}
