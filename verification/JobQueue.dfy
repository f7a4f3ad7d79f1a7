/** What a first-in first-out job queue looks like from outside. The queues of the connection, of
    the timer and of the WebSocket writer, whose appender to an empty list starts the runner, are
    shown to take only these steps. */
module JobQueue {

  type Job = nat

  /** The jobs accepted so far and the jobs started so far, each in order. */
  datatype Fifo = Fifo(accepted: seq<Job>, started: seq<Job>)

  predicate Accepts(f: Fifo, g: Fifo, job: Job)
  {
    g.accepted == f.accepted + [job] && g.started == f.started
  }

  predicate Starts(f: Fifo, g: Fifo)
  {
    && |f.started| < |f.accepted|
    && g.accepted == f.accepted
    && g.started == f.started + [f.accepted[|f.started|]]
  }

  ghost predicate Next(f: Fifo, g: Fifo)
  {
    g == f || Starts(f, g) || exists job :: Accepts(f, g, job)
  }

  /** Each job starts once and in order of acceptance: what has started is what was accepted first. */
  predicate InOrder(f: Fifo) { f.started <= f.accepted }

  lemma NextInOrder(f: Fifo, g: Fifo)
    requires InOrder(f) && Next(f, g)
    ensures InOrder(g) && f.started <= g.started && f.accepted <= g.accepted
  {
    if Starts(f, g) {
      assert g.started == g.accepted[..|g.started|];
    }
  }
}
