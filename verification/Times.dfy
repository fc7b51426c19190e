// The user-mode clock: struct timeval, compared and advanced as delayer.c,
// packet_logic.c and switcher.c do.
module Times {

  // struct timeval
  datatype Timeval = Timeval(sec: int, usec: int)

  // ip_noise_timeval_cmp
  function CompareTimevals(a: Timeval, b: Timeval): int {
    if a.sec > b.sec then 1
    else if a.sec < b.sec then -1
    else if a.usec > b.usec then 1
    else if a.usec < b.usec then -1
    else 0
  }

  predicate Before(a: Timeval, b: Timeval) {
    CompareTimevals(a, b) < 0
  }

  // Microseconds since the epoch.
  function Micros(tv: Timeval): int {
    tv.sec * 1000000 + tv.usec
  }

  // The reading of a clock.
  predicate Reading(tv: Timeval) {
    0 <= tv.usec < 1000000
  }

  // As the program keeps its times: a sum of just 1000000 microseconds is not
  // carried over.
  predicate Kept(tv: Timeval) {
    0 <= tv.usec <= 1000000
  }

  // length milliseconds after tv.
  function After(tv: Timeval, length: nat): (r: Timeval)
    requires Kept(tv)
    ensures Kept(r) && !Before(r, tv) && Micros(r) == Micros(tv) + length * 1000
  {
    var usec := tv.usec + length * 1000;
    if usec > 1000000 then Timeval(tv.sec + usec / 1000000, usec % 1000000) else Timeval(tv.sec, usec)
  }

  // The sum keeps 1000000 microseconds exactly if it comes to just as many; in all
  // other cases they are carried over.
  lemma {:induction false} AfterCarries(tv: Timeval, length: nat)
    requires Kept(tv)
    ensures After(tv, length).usec == 1000000 <==> tv.usec + length * 1000 == 1000000
    ensures tv.usec + length * 1000 == 1000000 ==> After(tv, length).sec == tv.sec
  {
  }

  // An event at tv is due at now: it lies before, or it is at the same time and kept
  // as 1000000 microseconds of the second before.
  predicate Due(tv: Timeval, now: Timeval) {
    Micros(tv) < Micros(now) || (tv.usec == 1000000 && now == Timeval(tv.sec + 1, 0))
  }

  // Times between whole seconds are compared as they should be. A kept 1000000
  // comes before the whole second it is equal to, and nothing else goes wrong.
  lemma {:induction false} BeforeIsEarlier(a: Timeval, b: Timeval)
    requires Kept(a) && Kept(b)
    ensures Before(a, b) <==> Due(a, b)
    ensures Reading(a) && Reading(b) ==> (Before(a, b) <==> Micros(a) < Micros(b))
    ensures CompareTimevals(a, b) == 0 <==> a == b
  {
  }

  lemma {:induction false} NotBeforeTrans(a: Timeval, b: Timeval, c: Timeval)
    requires !Before(a, b) && !Before(b, c)
    ensures !Before(a, c)
  {
  }
}
