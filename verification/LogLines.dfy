/** From the insertions of one log statement to the logger (base/Logging.cpp with base/AsyncLogging.h). */
module LogLines {
  import opened AsyncLoggings
  import opened BufferOwnership
  import opened LogPipeline
  import opened LogStreams
  import opened Sequences

  /** The size of the logger's buffers. */
  const LOGGER_SIZE: nat := 1000 * 4000

  /**
   What a log statement streams in reaches the logger whole: whatever other threads
   have logged and wherever the writer is, the line follows everything accepted
   before, with one more space behind it. It is never too long for a buffer, and it
   is complete, line feed included, if there was room for it.
   */
  method Log(l: AsyncLogging, tokens: seq<Token>)
    requires l.Valid() && l.size == LOGGER_SIZE
    requires forall i :: 0 <= i < |tokens| ==> WellFormed(tokens[i])
    modifies l, l.repr
    ensures l.Valid()
    ensures l.Kept() == old(l.Kept()) + (Line(LogStreams.Kept(tokens + [Char('\n')], SMALL_SIZE)) + " ")
    ensures |Line(tokens)| + INTEGER_ROOM < SMALL_SIZE ==>
      l.Kept() == old(l.Kept()) + (Line(tokens) + "\n " + " ")
    ensures l.repr >= old(l.repr) && fresh(l.repr - old(l.repr))
  {
    hide Settled, AsyncLogging.Backed, AsyncLogging.Kept;
    var statement := tokens + [Char('\n')];
    var line, rest := Stream(statement);
    LineSnoc(tokens, Char('\n'));
    if |Line(tokens)| + INTEGER_ROOM < SMALL_SIZE {
      KeepsAllThatFit(statement, SMALL_SIZE);
      Regroup(Line(tokens), "\n", " ");
    }
    l.KeptIsHistory();
    ghost var before := l.world.s;
    l.Append(line);
    StepRecords(before, Action.Append(line));
    l.KeptIsHistory();
  }
}
