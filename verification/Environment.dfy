/** What the proxy meets outside itself: a clock, the reviewer's replies, and a record of both. */
module Environment {
  import opened Wrappers
  import opened Authorization
  import opened ReviewApi

  /** What the pipeline asks of the outside while it handles a request. */
  datatype Question = TokenQuestion(token: string) | OidcQuestion(token: string) | AccessQuestion(attributes: Attributes)

  datatype Answer = Failed | Identified(user: Option<Identity>) | Decided(allowed: bool)

  datatype Exchange = Exchange(question: Question, answer: Answer)

  /** The clock and the network; `exchanges` records the questions answered so far, in order. */
  class World {
    var time: real
    ghost var exchanges: seq<Exchange>

    constructor (start: real)
      ensures time == start && exchanges == []
    {
      time := start;
      exchanges := [];
    }

    /** Reads the monotonic clock, which may have advanced. */
    method Now() returns (t: real)
      modifies this`time
      ensures t == time >= old(time)
    {
      var passed: real := *;
      if passed > 0.0 {
        time := time + passed;
      }
      t := time;
    }

    /** Sleeps for at least that long. */
    method Sleep(duration: real)
      modifies this`time
      ensures time >= old(time) && time >= old(time) + duration
    {
      if duration > 0.0 {
        time := time + duration;
      }
      var _ := Now();
    }

    /** Posts a review and waits for whatever reply comes, if any. */
    method Post(review: ReviewRequest) returns (r: Reply)
      modifies this`time
      ensures time >= old(time)
    {
      var _ := Now();
      r := *;
    }
  }
}
