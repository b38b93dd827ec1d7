/** The four pollers of voyager/core side by side. */
module Backends {
  import opened Dispatching
  import opened PollBackend
  import opened EpollBackend
  import opened SelectBackend
  import opened KqueueBackend

  /** After the same calls, all four watch every descriptor for the same events, which are those
      of its dispatch and those that the calls enabled last, and the kernel has rejected no request. */
  lemma AllAgree(p: EventPoll, e: EventEpoll, s: EventSelect, k: EventKqueue, fd: nat)
    requires p.Valid() && e.Valid() && s.Valid() && k.Valid()
    requires p.history == e.history == s.history == k.history
    ensures p.Watched(fd) == e.Watched(fd) == s.Watched(fd) == k.Watched(fd) == Interest(Replay(p.history), fd)
    ensures Reading(p.Watched(fd)) <==> ReadWanted(p.history, fd)
    ensures Writing(p.Watched(fd)) <==> WriteWanted(p.history, fd)
    ensures fd in p.dispatchMap <==> fd in Replay(p.history)
    ensures p.dispatchMap.Keys == e.dispatchMap.Keys == s.dispatchMap.Keys == k.dispatchMap.Keys
    ensures fd in p.dispatchMap ==>
      p.dispatchMap[fd].events == e.dispatchMap[fd].events == s.dispatchMap[fd].events
      == k.dispatchMap[fd].events == p.Watched(fd)
    ensures e.errors == 0 && k.errors == 0
  {
    InterestIsWanted(p.history, fd);
    p.WatchedIsInterest(fd);
    e.WatchedIsInterest(fd);
    s.WatchedIsInterest(fd);
    k.WatchedIsInterest(fd);
  }
}
