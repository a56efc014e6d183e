/** The calls the serializer makes on its receiver, and what a receiver can learn from them. */
module Calls {
  import opened Wrappers
  import opened Events

  datatype Call =
    | SwitchThread(tid: Tid)
    | SetTS(ts: int, cpu: int)
    | Do(ev: Event)
    | KillCurrentThread
    | Barrier

  // The thread the receiver believes it is running.
  function Current(log: seq<Call>): Tid {
    if log == [] then INVALID_THREAD
    else match log[|log| - 1]
      case SwitchThread(tid) => tid
      case KillCurrentThread => INVALID_THREAD
      case _ => Current(log[..|log| - 1])
  }

  // The time and cpu the receiver was last told.
  function Clock(log: seq<Call>): (int, int) {
    if log == [] then (0, 0)
    else match log[|log| - 1]
      case SetTS(ts, cpu) => (ts, cpu)
      case _ => Clock(log[..|log| - 1])
  }

  // The events the receiver hears of, each attributed to a thread, a time and a cpu.
  function Heard(log: seq<Call>): seq<(Tid, Timed)> {
    if log == [] then []
    else
      var before := log[..|log| - 1];
      match log[|log| - 1]
      case Do(ev) => Heard(before) + [(Current(before), Timed(ev, Clock(before).0, Clock(before).1))]
      case _ => Heard(before)
  }

  // The threads killed, in order.
  function Kills(log: seq<Call>): seq<Tid> {
    if log == [] then []
    else
      var before := log[..|log| - 1];
      Kills(before) + if log[|log| - 1].KillCurrentThread? then [Current(before)] else []
  }

  // Every switch goes to a valid thread that is not the current one, and only a valid thread is
  // killed: what replay asserts about the threads it is told of.
  predicate Crisp(log: seq<Call>) {
    log == [] ||
    var before := log[..|log| - 1];
    Crisp(before) &&
    match log[|log| - 1]
    case SwitchThread(tid) => tid != Current(before) && tid != INVALID_THREAD
    case KillCurrentThread => Current(before) != INVALID_THREAD
    case _ => true
  }

  lemma LogSnoc(log: seq<Call>, c: Call)
    ensures Current(log + [c]) == match c case SwitchThread(t) => t case KillCurrentThread => INVALID_THREAD case _ => Current(log)
    ensures Clock(log + [c]) == match c case SetTS(ts, cpu) => (ts, cpu) case _ => Clock(log)
    ensures Heard(log + [c]) ==
            Heard(log) + if c.Do? then [(Current(log), Timed(c.ev, Clock(log).0, Clock(log).1))] else []
    ensures Kills(log + [c]) == Kills(log) + if c.KillCurrentThread? then [Current(log)] else []
    ensures Crisp(log + [c]) <==>
            Crisp(log) && match c
                          case SwitchThread(t) => t != Current(log) && t != INVALID_THREAD
                          case KillCurrentThread => Current(log) != INVALID_THREAD
                          case _ => true
  {
    assert (log + [c])[..|log|] == log;
  }
}
