/** The usage reporter: a `select!` loop that batches events from the bus and POSTs the batches. */
module UsageReporter {
  import opened Common
  import opened EventBus

  /** One POST, and whether the sink accepted it. */
  datatype Post<E> = Post(events: seq<E>, accepted: bool)

  /** The reporter's state. `taken` says of every event received, in order, whether it was put into the
      batch or skipped by a lag. */
  datatype Reporter<E> = Reporter(next: nat, batch: seq<E>, posts: seq<Post<E>>, taken: seq<bool>, running: bool)

  /** The branches of the `select!`. */
  datatype Branch = Shutdown | Tick | Recv

  /** POST the batch if there is one, then clear it, accepted or not. */
  function Sent<E>(r: Reporter<E>, accepted: bool): Reporter<E> {
    if r.batch == [] then r else r.(posts := r.posts + [Post(r.batch, accepted)], batch := [])
  }

  function Repeat(b: bool, n: nat): seq<bool> { seq(n, _ => b) }

  function SentIfFull<E>(r: Reporter<E>, max: nat, accepted: bool): Reporter<E> {
    if |r.batch| >= max then Sent(r, accepted) else r
  }

  function Took<E>(r: Reporter<E>, e: E): Reporter<E> {
    r.(next := r.next + 1, batch := r.batch + [e], taken := r.taken + [true])
  }

  function Skipped<E>(r: Reporter<E>, n: nat): Reporter<E> {
    r.(next := r.next + n, taken := r.taken + Repeat(false, n))
  }

  /** One turn of the loop, the branch that fired being `branch`. A receive that has nothing is not
      ready, and does not fire. */
  function Turn<E>(r: Reporter<E>, log: seq<E>, cap: nat, closed: bool, max: nat, branch: Branch, accepted: bool)
    : Reporter<E>
    requires r.next <= |log|
  {
    if !r.running then r
    else match branch
      case Shutdown => Sent(r, accepted).(running := false)
      case Tick => Sent(r, accepted)
      case Recv =>
        match Receive(log, cap, closed, r.next)
        case Event(e) => SentIfFull(Took(r, e), max, accepted)
        case Lagged(n) => Skipped(r, n)
        case Empty => r
        case Closed => Sent(r, accepted).(running := false)
  }

  // ---- Runs -------------------------------------------------------------------------------------

  /** What can happen: an event is emitted, the senders go away, or the loop takes a turn. */
  datatype Input<E> = Emit(event: E) | Close | Wake(branch: Branch, accepted: bool)

  datatype World<E> = World(log: seq<E>, closed: bool, reporter: Reporter<E>)

  function Start<E>(log: seq<E>): World<E> { World(log, false, Reporter(|log|, [], [], [], true)) }

  /** Any order of inputs is a run. */
  function Run<E>(before: seq<E>, cap: nat, max: nat, inputs: seq<Input<E>>): (w: World<E>)
    ensures w.reporter.next <= |w.log|
    decreases |inputs|
  {
    if inputs == [] then Start(before)
    else
      var w := Run(before, cap, max, inputs[..|inputs| - 1]);
      match inputs[|inputs| - 1]
      case Emit(e) => if w.closed then w else w.(log := w.log + [e])
      case Close => w.(closed := true)
      case Wake(branch, accepted) => w.(reporter := Turn(w.reporter, w.log, cap, w.closed, max, branch, accepted))
  }

  /** Events emitted one after the other. */
  function Emits<E>(es: seq<E>): seq<Input<E>> { seq(|es|, k requires 0 <= k < |es| => Emit(es[k])) }

  lemma {:induction false} RunEmits<E>(before: seq<E>, cap: nat, max: nat, inputs: seq<Input<E>>, es: seq<E>)
    ensures var w := Run(before, cap, max, inputs);
            Run(before, cap, max, inputs + Emits(es)) == if w.closed then w else w.(log := w.log + es)
    decreases |es|
  {
    var w := Run(before, cap, max, inputs);
    if es == [] {
      assert inputs + Emits(es) == inputs && w.log + es == w.log;
    } else {
      var n := |es| - 1;
      var front, all := inputs + Emits(es[..n]), inputs + Emits(es);
      RunEmits(before, cap, max, inputs, es[..n]);
      assert all[..|all| - 1] == front && all[|all| - 1] == Emit(es[n]);
      assert w.log + es == w.log + es[..n] + [es[n]];
    }
  }

  /** One input, and the events emitted meanwhile if it makes the reporter POST. */
  ghost function Happens<E>(before: seq<E>, cap: nat, max: nat, inputs: seq<Input<E>>, input: Input<E>,
                            meanwhile: seq<E>)
    : seq<Input<E>>
  {
    var w, w' := Run(before, cap, max, inputs), Run(before, cap, max, inputs + [input]);
    inputs + [input] + if w'.reporter.posts == w.reporter.posts then [] else Emits(meanwhile)
  }

  /** What happens under a schedule, `during` giving the events emitted while the request of each input is out. */
  ghost function History<E>(before: seq<E>, cap: nat, max: nat, inputs: seq<Input<E>>, during: seq<seq<E>>)
    : seq<Input<E>>
    requires |during| == |inputs|
    decreases |inputs|
  {
    if inputs == [] then []
    else
      var n := |inputs| - 1;
      Happens(before, cap, max, History(before, cap, max, inputs[..n], during[..n]), inputs[n], during[n])
  }

  /** A turn that POSTs, and then the events emitted while its request is out. */
  lemma RunHappens<E>(before: seq<E>, cap: nat, max: nat, inputs: seq<Input<E>>, branch: Branch, accepted: bool,
                      meanwhile: seq<E>)
    ensures var w := Run(before, cap, max, inputs);
            var r := Turn(w.reporter, w.log, cap, w.closed, max, branch, accepted);
            Run(before, cap, max, Happens(before, cap, max, inputs, Wake(branch, accepted), meanwhile))
            == World(if r.posts == w.reporter.posts || w.closed then w.log else w.log + meanwhile, w.closed, r)
  {
    var inputs' := inputs + [Wake(branch, accepted)];
    assert inputs'[..|inputs'| - 1] == inputs;
    RunEmits(before, cap, max, inputs', meanwhile);
    assert inputs' + [] == inputs';
  }

  // ---- Conservation and order -------------------------------------------------------------------

  /** The events of `log` whose flag is `b`, in order. */
  function Pick<E>(log: seq<E>, flags: seq<bool>, b: bool): seq<E>
    requires |log| == |flags|
  {
    if log == [] then []
    else
      var n := |log| - 1;
      Pick(log[..n], flags[..n], b) + (if flags[n] == b then [log[n]] else [])
  }

  /** The bodies of the POSTs, one after the other. */
  function Bodies<E>(posts: seq<Post<E>>): seq<E> {
    if posts == [] then [] else Bodies(posts[..|posts| - 1]) + posts[|posts| - 1].events
  }

  function BodiesOf<E>(posts: seq<Post<E>>, accepted: bool): seq<E> {
    if posts == [] then []
    else
      BodiesOf(posts[..|posts| - 1], accepted)
      + (if posts[|posts| - 1].accepted == accepted then posts[|posts| - 1].events else [])
  }

  /** Every event received is flagged once; those taken are, in order, the POST bodies and then the
      batch. */
  ghost predicate Ordered<E>(r: Reporter<E>, log: seq<E>, start: nat) {
    && start <= r.next <= |log| && |r.taken| == r.next - start
    && Pick(log[start..r.next], r.taken, true) == Bodies(r.posts) + r.batch
  }

  lemma PickSnoc<E>(log: seq<E>, flags: seq<bool>, e: E, f: bool, b: bool)
    requires |log| == |flags|
    ensures Pick(log + [e], flags + [f], b) == Pick(log, flags, b) + (if f == b then [e] else [])
  {
    assert (log + [e])[..|log|] == log && (flags + [f])[..|log|] == flags;
  }

  lemma {:induction false} PickSkipped<E>(log: seq<E>, flags: seq<bool>, more: seq<E>)
    requires |log| == |flags|
    ensures Pick(log + more, flags + Repeat(false, |more|), true) == Pick(log, flags, true)
    decreases |more|
  {
    var n := |more|;
    if n == 0 {
      assert log + more == log && flags + Repeat(false, n) == flags;
    } else {
      PickSkipped(log, flags, more[..n - 1]);
      PickSnoc(log + more[..n - 1], flags + Repeat(false, n - 1), more[n - 1], false, true);
      assert log + more == log + more[..n - 1] + [more[n - 1]];
      assert flags + Repeat(false, n) == flags + Repeat(false, n - 1) + [false];
    }
  }

  lemma SentOrdered<E>(r: Reporter<E>, log: seq<E>, start: nat, accepted: bool)
    requires Ordered(r, log, start)
    ensures Ordered(Sent(r, accepted), log, start)
  {
    if r.batch != [] {
      var posts := r.posts + [Post(r.batch, accepted)];
      assert posts[..|posts| - 1] == r.posts;
      assert Bodies(posts) + [] == Bodies(r.posts) + r.batch;
    }
  }

  lemma TakenOrdered<E>(r: Reporter<E>, log: seq<E>, start: nat)
    requires Ordered(r, log, start) && r.next < |log|
    ensures Ordered(Took(r, log[r.next]), log, start)
  {
    var e := log[r.next];
    PickSnoc(log[start..r.next], r.taken, e, true, true);
    assert log[start..r.next + 1] == log[start..r.next] + [e];
    Assoc(Bodies(r.posts), r.batch, [e]);
  }

  lemma SkippedOrdered<E>(r: Reporter<E>, log: seq<E>, start: nat, n: nat)
    requires Ordered(r, log, start) && r.next + n <= |log|
    ensures Ordered(Skipped(r, n), log, start)
  {
    PickSkipped(log[start..r.next], r.taken, log[r.next..r.next + n]);
    assert log[start..r.next + n] == log[start..r.next] + log[r.next..r.next + n];
  }

  lemma ReceiveOrdered<E>(r: Reporter<E>, log: seq<E>, cap: nat, closed: bool, max: nat, accepted: bool, start: nat)
    requires Ordered(r, log, start) && r.running
    ensures Ordered(Turn(r, log, cap, closed, max, Recv, accepted), log, start)
  {
    match Receive(log, cap, closed, r.next)
    case Event(e) =>
      TakenOrdered(r, log, start);
      SentOrdered(Took(r, e), log, start, accepted);
    case Lagged(n) => SkippedOrdered(r, log, start, n);
    case Empty =>
    case Closed => StoppedOrdered(r, log, start, accepted);
  }

  lemma StoppedOrdered<E>(r: Reporter<E>, log: seq<E>, start: nat, accepted: bool)
    requires Ordered(r, log, start)
    ensures Ordered(Sent(r, accepted).(running := false), log, start)
  {
    SentOrdered(r, log, start, accepted);
  }

  lemma TurnOrdered<E>(r: Reporter<E>, log: seq<E>, cap: nat, closed: bool, max: nat, branch: Branch, accepted: bool,
                       start: nat)
    requires Ordered(r, log, start)
    ensures Ordered(Turn(r, log, cap, closed, max, branch, accepted), log, start)
  {
    if r.running && branch == Recv {
      ReceiveOrdered(r, log, cap, closed, max, accepted, start);
    } else {
      SentOrdered(r, log, start, accepted);
      StoppedOrdered(r, log, start, accepted);
    }
  }

  /** Order, over every run: the POST bodies and the batch are an in-order selection of the events
      emitted since the subscription, each at most once. */
  lemma {:induction false} RunOrdered<E>(before: seq<E>, cap: nat, max: nat, inputs: seq<Input<E>>)
    ensures var w := Run(before, cap, max, inputs); before <= w.log && Ordered(w.reporter, w.log, |before|)
    decreases |inputs|
  {
    if inputs == [] {
      assert before[|before|..] == [];
    } else {
      var w, w' := Run(before, cap, max, inputs[..|inputs| - 1]), Run(before, cap, max, inputs);
      RunOrdered(before, cap, max, inputs[..|inputs| - 1]);
      match inputs[|inputs| - 1]
      case Emit(e) => assert w'.log[|before|..w.reporter.next] == w.log[|before|..w.reporter.next];
      case Close =>
      case Wake(branch, accepted) =>
        TurnOrdered(w.reporter, w.log, cap, w.closed, max, branch, accepted, |before|);
    }
  }

  lemma {:induction false} PickPartitions<E>(log: seq<E>, flags: seq<bool>)
    requires |log| == |flags|
    ensures multiset(log) == multiset(Pick(log, flags, true)) + multiset(Pick(log, flags, false))
    decreases |log|
  {
    if log != [] {
      var n := |log| - 1;
      PickPartitions(log[..n], flags[..n]);
      AddOne(log[..n], Pick(log[..n], flags[..n], true), Pick(log[..n], flags[..n], false), log[n]);
      assert log == log[..n] + [log[n]];
      assert Pick(log[..n], flags[..n], !flags[n]) + [] == Pick(log[..n], flags[..n], !flags[n]);
    }
  }

  /** One more element goes to either side of a partition. */
  lemma AddOne<E>(all: seq<E>, a: seq<E>, b: seq<E>, e: E)
    requires multiset(all) == multiset(a) + multiset(b)
    ensures multiset(all + [e]) == multiset(a + [e]) + multiset(b) == multiset(a) + multiset(b + [e])
  {
  }

  lemma {:induction false} PostsPartition<E>(posts: seq<Post<E>>)
    ensures multiset(Bodies(posts)) == multiset(BodiesOf(posts, true)) + multiset(BodiesOf(posts, false))
    decreases |posts|
  {
    if posts != [] { PostsPartition(posts[..|posts| - 1]); }
  }

  /** Conservation, over every run: the events emitted since the subscription are exactly those in
      accepted POSTs, those in failed POSTs, those skipped by a lag, the batch, and those not received
      yet. */
  lemma Conservation<E>(before: seq<E>, cap: nat, max: nat, inputs: seq<Input<E>>)
    ensures var w := Run(before, cap, max, inputs);
            var r, start := w.reporter, |before|;
            && start <= r.next <= |w.log| && |r.taken| == r.next - start
            && multiset(w.log[start..])
               == multiset(BodiesOf(r.posts, true)) + multiset(BodiesOf(r.posts, false))
                  + multiset(Pick(w.log[start..r.next], r.taken, false)) + multiset(r.batch)
                  + multiset(w.log[r.next..])
  {
    var w := Run(before, cap, max, inputs);
    var r, start := w.reporter, |before|;
    RunOrdered(before, cap, max, inputs);
    Accounted(r, w.log, start);
  }

  lemma Accounted<E>(r: Reporter<E>, log: seq<E>, start: nat)
    requires Ordered(r, log, start)
    ensures multiset(log[start..])
            == multiset(BodiesOf(r.posts, true)) + multiset(BodiesOf(r.posts, false))
               + multiset(Pick(log[start..r.next], r.taken, false)) + multiset(r.batch) + multiset(log[r.next..])
  {
    var received, unread := log[start..r.next], log[r.next..];
    PickPartitions(received, r.taken);
    PostsPartition(r.posts);
    assert log[start..] == received + unread;
    Together(received, Pick(received, r.taken, true), Pick(received, r.taken, false), Bodies(r.posts),
             BodiesOf(r.posts, true), BodiesOf(r.posts, false), r.batch, unread);
  }

  lemma Together<E>(received: seq<E>, taken: seq<E>, skipped: seq<E>, bodies: seq<E>, sent: seq<E>, failed: seq<E>,
                    batch: seq<E>, unread: seq<E>)
    requires multiset(received) == multiset(taken) + multiset(skipped) && taken == bodies + batch
    requires multiset(bodies) == multiset(sent) + multiset(failed)
    ensures multiset(received + unread)
            == multiset(sent) + multiset(failed) + multiset(skipped) + multiset(batch) + multiset(unread)
  {
  }

  // ---- Batch shape ------------------------------------------------------------------------------

  predicate Shaped<E>(r: Reporter<E>, max: nat) {
    && |r.batch| < max
    && (forall k :: 0 <= k < |r.posts| ==> 1 <= |r.posts[k].events| <= max)
    && (!r.running ==> r.batch == [])
  }

  lemma TurnShaped<E>(r: Reporter<E>, log: seq<E>, cap: nat, closed: bool, max: nat, branch: Branch, accepted: bool)
    requires r.next <= |log| && Shaped(r, max)
    ensures Shaped(Turn(r, log, cap, closed, max, branch, accepted), max)
  {
  }

  /** At every loop head the batch is short of full, every POST carries between one and `max` events, and
      a reporter that has stopped holds nothing. */
  lemma {:induction false} BatchShape<E>(before: seq<E>, cap: nat, max: nat, inputs: seq<Input<E>>)
    requires max >= 1
    ensures Shaped(Run(before, cap, max, inputs).reporter, max)
    decreases |inputs|
  {
    if inputs != [] {
      var w := Run(before, cap, max, inputs[..|inputs| - 1]);
      BatchShape(before, cap, max, inputs[..|inputs| - 1]);
      match inputs[|inputs| - 1]
      case Wake(branch, accepted) => TurnShaped(w.reporter, w.log, cap, w.closed, max, branch, accepted);
      case _ =>
    }
  }

  /** A lag skips exactly what the ring has overwritten: the next event received is the oldest retained. */
  lemma LagIsOverwritten<E>(r: Reporter<E>, log: seq<E>, cap: nat, closed: bool, max: nat, accepted: bool)
    requires r.running && r.next <= |log|
    requires cap > 0
    ensures var r' := Turn(r, log, cap, closed, max, Recv, accepted);
            && (Receive(log, cap, closed, r.next).Lagged? <==> |log| - r.next > cap)
            && (Receive(log, cap, closed, r.next).Lagged? ==>
                  r'.next == |log| - cap && r'.batch == r.batch && r'.posts == r.posts
                  && Receive(log, cap, closed, r'.next) == Event(log[|log| - cap]))
  {
  }

  // ---- What a turn does, and what a flag means --------------------------------------------------

  /** The batch, if there is one, is one more POST with this outcome, and nothing is held any more. */
  ghost predicate Posted<E>(before: Reporter<E>, after: Reporter<E>, batch: seq<E>, accepted: bool) {
    && after.batch == []
    && if batch == [] then after.posts == before.posts else after.posts == before.posts + [Post(batch, accepted)]
  }

  ghost predicate SameReading<E>(before: Reporter<E>, after: Reporter<E>) {
    after.next == before.next && after.taken == before.taken
  }

  /** A tick POSTs the batch; a shutdown does too and stops the loop. */
  lemma TickAndShutdown<E>(r: Reporter<E>, log: seq<E>, cap: nat, closed: bool, max: nat, branch: Branch,
                           accepted: bool)
    requires r.running && r.next <= |log| && branch != Recv
    ensures var r' := Turn(r, log, cap, closed, max, branch, accepted);
            Posted(r, r', r.batch, accepted) && SameReading(r, r') && r'.running == (branch == Tick)
  {
  }

  /** An event the ring still holds is reported: it joins the batch, which is POSTed as soon as it is full. */
  lemma EventIsReported<E>(r: Reporter<E>, log: seq<E>, cap: nat, closed: bool, max: nat, accepted: bool)
    requires r.running && r.next < |log| <= r.next + cap
    ensures var r' := Turn(r, log, cap, closed, max, Recv, accepted);
            && Bodies(r'.posts) + r'.batch == Bodies(r.posts) + r.batch + [log[r.next]]
            && (if |r.batch| + 1 >= max then Posted(r, r', r.batch + [log[r.next]], accepted) else r'.posts == r.posts)
            && r'.next == r.next + 1 && r'.taken == r.taken + [true] && r'.running
  {
    var took := Took(r, log[r.next]);
    assert Receive(log, cap, closed, r.next) == Event(log[r.next]);
    Assoc(Bodies(r.posts), r.batch, [log[r.next]]);
    SentKeeps(took, accepted);
  }

  /** Sending moves the batch into the POST bodies. */
  lemma SentKeeps<E>(r: Reporter<E>, accepted: bool)
    ensures var r' := Sent(r, accepted); Bodies(r'.posts) + r'.batch == Bodies(r.posts) + r.batch
  {
    if r.batch != [] {
      var posts := r.posts + [Post(r.batch, accepted)];
      assert posts[..|posts| - 1] == r.posts;
      assert Bodies(posts) + [] == Bodies(r.posts) + r.batch;
    }
  }

  /** With nothing left to receive, an open bus leaves the reporter as it is; a closed one makes it POST the batch
      and stop. */
  lemma NothingToReceive<E>(r: Reporter<E>, log: seq<E>, cap: nat, closed: bool, max: nat, accepted: bool)
    requires r.running && r.next == |log|
    ensures var r' := Turn(r, log, cap, closed, max, Recv, accepted);
            if closed then Posted(r, r', r.batch, accepted) && SameReading(r, r') && !r'.running else r' == r
  {
  }

  /** Input `n` of a run receives position `pos`, or passes it over. */
  ghost predicate Reads<E>(before: seq<E>, cap: nat, max: nat, inputs: seq<Input<E>>, n: nat, pos: nat) {
    && n < |inputs| && inputs[n].Wake? && inputs[n].branch == Recv
    && Run(before, cap, max, inputs[..n]).reporter.next <= pos < Run(before, cap, max, inputs[..n + 1]).reporter.next
  }

  /** A position that the ring had overwritten when input `n` came. */
  ghost predicate Overwritten<E>(before: seq<E>, cap: nat, max: nat, inputs: seq<Input<E>>, n: nat, pos: nat)
    requires n <= |inputs|
  {
    pos + cap < |Run(before, cap, max, inputs[..n]).log|
  }

  /** One turn: the flags it adds say which of the positions it reads were overwritten. */
  lemma TurnFlags<E>(r: Reporter<E>, log: seq<E>, cap: nat, closed: bool, max: nat, branch: Branch, accepted: bool,
                     start: nat, k: nat)
    requires cap > 0 && start <= r.next <= |log| && |r.taken| == r.next - start
    ensures var r' := Turn(r, log, cap, closed, max, branch, accepted);
            && r.taken <= r'.taken && |r'.taken| == r'.next - start
            && (k < |r.taken| ==> r'.taken[k] == r.taken[k])
            && (|r.taken| <= k < |r'.taken| ==>
                  branch == Recv && r.next <= start + k < r'.next && (r'.taken[k] <==> |log| <= start + k + cap))
  {
  }

  /** Over every run, every position received so far was received by one turn, and its event was reported if and
      only if the ring still held it then. */
  lemma {:induction false} FlagsTell<E>(before: seq<E>, cap: nat, max: nat, inputs: seq<Input<E>>, k: nat)
    returns (n: nat)
    requires cap > 0 && k < |Run(before, cap, max, inputs).reporter.taken|
    ensures Reads(before, cap, max, inputs, n, |before| + k)
    ensures Run(before, cap, max, inputs).reporter.taken[k] <==> !Overwritten(before, cap, max, inputs, n, |before| + k)
    decreases |inputs|
  {
    assert inputs != [];
    var m := |inputs| - 1;
    var init, w, w' := inputs[..m], Run(before, cap, max, inputs[..m]), Run(before, cap, max, inputs);
    RunOrdered(before, cap, max, init);
    if inputs[m].Wake? {
      TurnFlags(w.reporter, w.log, cap, w.closed, max, inputs[m].branch, inputs[m].accepted, |before|, k);
    }
    assert inputs[..m + 1] == inputs;
    if k < |w.reporter.taken| {
      n := FlagsTell(before, cap, max, init, k);
      assert init[..n] == inputs[..n] && init[..n + 1] == inputs[..n + 1];
    } else {
      n := m;
    }
  }

  /** No receive of the run found its position overwritten. */
  ghost predicate NeverLags<E>(before: seq<E>, cap: nat, max: nat, inputs: seq<Input<E>>) {
    forall n: nat, pos: nat ::
      Reads(before, cap, max, inputs, n, pos) ==> !Overwritten(before, cap, max, inputs, n, pos)
  }

  lemma {:induction false} PickAll<E>(log: seq<E>, flags: seq<bool>)
    requires |log| == |flags| && forall k :: 0 <= k < |flags| ==> flags[k]
    ensures Pick(log, flags, true) == log
    decreases |log|
  {
    if log != [] {
      var n := |log| - 1;
      PickAll(log[..n], flags[..n]);
      assert log == log[..n] + [log[n]];
    }
  }

  /** Without a lag nothing is lost: the POST bodies and the batch are all the events received, in order. */
  lemma WithoutLag<E>(before: seq<E>, cap: nat, max: nat, inputs: seq<Input<E>>)
    requires cap > 0 && NeverLags(before, cap, max, inputs)
    ensures var w := Run(before, cap, max, inputs);
            |before| <= w.reporter.next
            && w.log[|before|..w.reporter.next] == Bodies(w.reporter.posts) + w.reporter.batch
  {
    var w := Run(before, cap, max, inputs);
    RunOrdered(before, cap, max, inputs);
    forall k | 0 <= k < |w.reporter.taken| ensures w.reporter.taken[k] {
      var n := FlagsTell(before, cap, max, inputs, k);
    }
    PickAll(w.log[|before|..w.reporter.next], w.reporter.taken);
  }

  /** A run in which nobody asks for a shutdown. */
  ghost predicate Undisturbed<E>(inputs: seq<Input<E>>) {
    forall n :: 0 <= n < |inputs| && inputs[n].Wake? ==> inputs[n].branch != Shutdown
  }

  /** Without a shutdown the reporter stops only when the senders are gone and it has received all they sent, and
      then it holds nothing. */
  lemma {:induction false} StopsWhenDrained<E>(before: seq<E>, cap: nat, max: nat, inputs: seq<Input<E>>)
    requires cap > 0 && Undisturbed(inputs)
    ensures var w := Run(before, cap, max, inputs);
            !w.reporter.running ==> w.closed && w.reporter.next == |w.log| && w.reporter.batch == []
    decreases |inputs|
  {
    if inputs != [] {
      var m := |inputs| - 1;
      var w := Run(before, cap, max, inputs[..m]);
      assert forall n :: 0 <= n < m ==> inputs[..m][n] == inputs[n];
      StopsWhenDrained(before, cap, max, inputs[..m]);
      if inputs[m].Wake? && w.reporter.running {
        StaysUp(w.reporter, w.log, cap, w.closed, max, inputs[m].branch, inputs[m].accepted);
      }
    }
  }

  lemma StaysUp<E>(r: Reporter<E>, log: seq<E>, cap: nat, closed: bool, max: nat, branch: Branch, accepted: bool)
    requires cap > 0 && r.running && r.next <= |log| && branch != Shutdown
    ensures var r' := Turn(r, log, cap, closed, max, branch, accepted);
            !r'.running ==> closed && branch == Recv && r.next == r'.next == |log| && r'.batch == []
  {
  }

  /** Receives, the POST of each, if it makes one, with this outcome. */
  function Receives<E>(outcomes: seq<bool>): seq<Input<E>> {
    if outcomes == [] then [] else [Wake(Recv, outcomes[0])] + Receives(outcomes[1..])
  }

  lemma RunWake<E>(before: seq<E>, cap: nat, max: nat, inputs: seq<Input<E>>, accepted: bool)
    ensures var w := Run(before, cap, max, inputs);
            Run(before, cap, max, inputs + [Wake(Recv, accepted)])
            == w.(reporter := Turn(w.reporter, w.log, cap, w.closed, max, Recv, accepted))
  {
    assert (inputs + [Wake(Recv, accepted)])[..|inputs|] == inputs;
  }

  /** Enough receives after the senders have gone stop the reporter, whatever becomes of its POSTs. */
  lemma {:induction false} DrainsAndStops<E>(before: seq<E>, cap: nat, max: nat, inputs: seq<Input<E>>,
                                             outcomes: seq<bool>)
    requires var w := Run(before, cap, max, inputs);
             w.closed && (w.reporter.running ==> |outcomes| > |w.log| - w.reporter.next)
    ensures !Run(before, cap, max, inputs + Receives(outcomes)).reporter.running
    decreases |outcomes|
  {
    if outcomes == [] {
      assert inputs + Receives(outcomes) == inputs;
    } else {
      var more := inputs + [Wake(Recv, outcomes[0])];
      Assoc(inputs, [Wake(Recv, outcomes[0])], Receives(outcomes[1..]));
      RunWake(before, cap, max, inputs, outcomes[0]);
      DrainsAndStops(before, cap, max, more, outcomes[1..]);
    }
  }

  /** Without a shutdown and without a lag, a reporter that has stopped has POSTed every event since the
      subscription, once and in order. */
  lemma AllIsPosted<E>(before: seq<E>, cap: nat, max: nat, inputs: seq<Input<E>>)
    requires cap > 0 && Undisturbed(inputs) && NeverLags(before, cap, max, inputs)
    ensures var w := Run(before, cap, max, inputs);
            !w.reporter.running ==> |before| <= |w.log| && w.log[|before|..] == Bodies(w.reporter.posts)
  {
    var w := Run(before, cap, max, inputs);
    StopsWhenDrained(before, cap, max, inputs);
    WithoutLag(before, cap, max, inputs);
    if !w.reporter.running {
      assert w.log[|before|..w.reporter.next] == w.log[|before|..];
      assert Bodies(w.reporter.posts) + [] == Bodies(w.reporter.posts);
    }
  }

  // ---- The loop ---------------------------------------------------------------------------------

  class UsageReporter<E> {
    const bus: EventBus<E>
    const batchMax: nat
    var next: nat
    var batch: seq<E>
    var running: bool
    ghost var posts: seq<Post<E>>
    ghost var taken: seq<bool>

    ghost predicate Valid()
      reads this, bus, bus.slots
    {
      bus.Valid() && next <= bus.tail && bus.receivers > 0 && batchMax >= 1
    }

    ghost function State(): Reporter<E>
      reads this
    {
      Reporter(next, batch, posts, taken, running)
    }

    constructor (bus: EventBus<E>, batchMax: nat, next: nat)
      requires bus.Valid() && bus.receivers > 0 && next == |bus.log|
      ensures Valid() && this.bus == bus && this.batchMax == (if batchMax < 1 then 1 else batchMax)
      ensures State() == Start(bus.log).reporter
    {
      this.bus, this.batchMax := bus, if batchMax < 1 then 1 else batchMax;
      this.next, batch, running, posts, taken := next, [], true, [], [];
    }

    /** POST the batch and clear it. Events go on being emitted while the request is out, if there are senders. */
    method SendBatch(accepted: bool, meanwhile: seq<E>)
      requires Valid()
      modifies this`batch, this`posts, bus`tail, bus`log, bus.slots
      ensures Valid() && State() == Sent(old(State()), accepted)
      ensures bus.log == if old(batch) == [] || bus.closed then old(bus.log) else old(bus.log) + meanwhile
    {
      if batch == [] { return; }
      var body := batch;
      Meanwhile(meanwhile);
      posts := posts + [Post(body, accepted)];
      batch := [];
    }

    method Meanwhile(meanwhile: seq<E>)
      requires Valid()
      modifies bus`tail, bus`log, bus.slots
      ensures Valid() && bus.log == if bus.closed then old(bus.log) else old(bus.log) + meanwhile
    {
      if bus.closed { return; }
      for k := 0 to |meanwhile|
        invariant Valid() && bus.log == old(bus.log) + meanwhile[..k]
      {
        assert old(bus.log) + meanwhile[..k] + [meanwhile[k]] == old(bus.log) + meanwhile[..k + 1];
        bus.Emit(meanwhile[k]);
      }
      assert meanwhile[..|meanwhile|] == meanwhile;
    }

    /** One turn of the `select!` loop. */
    method Step(branch: Branch, accepted: bool, meanwhile: seq<E>)
      requires Valid() && running
      modifies this, bus`tail, bus`log, bus.slots
      ensures Valid()
      ensures State() == Turn(old(State()), old(bus.log), bus.cap, bus.closed, batchMax, branch, accepted)
      ensures bus.log == if posts == old(posts) || bus.closed then old(bus.log) else old(bus.log) + meanwhile
    {
      match branch {
        case Shutdown =>
          SendBatch(accepted, meanwhile);
          running := false;
        case Tick => SendBatch(accepted, meanwhile);
        case Recv =>
          var r, next' := bus.TryRecv(next);
          next := next';
          match r {
            case Event(event) =>
              batch := batch + [event];
              taken := taken + [true];
              if |batch| >= batchMax { SendBatch(accepted, meanwhile); }
            case Lagged(n) => taken := taken + Repeat(false, n);
            case Empty =>
            case Closed =>
              SendBatch(accepted, meanwhile);
              running := false;
          }
      }
    }

    /** The loop, under any schedule of the world around it and of the events emitted during its requests. */
    method Loop(inputs: seq<Input<E>>, during: seq<seq<E>>)
      requires Valid() && State() == Start(bus.log).reporter && !bus.closed && |during| == |inputs|
      modifies this, bus`tail, bus`log, bus`closed, bus.slots
      ensures Valid()
      ensures World(bus.log, bus.closed, State())
              == Run(old(bus.log), bus.cap, batchMax, History(old(bus.log), bus.cap, batchMax, inputs, during))
    {
      ghost var history: seq<Input<E>> := [];
      for k := 0 to |inputs|
        invariant Valid() && bus.slots == old(bus.slots)
        invariant history == History(old(bus.log), bus.cap, batchMax, inputs[..k], during[..k])
        invariant World(bus.log, bus.closed, State()) == Run(old(bus.log), bus.cap, batchMax, history)
      {
        assert inputs[..k + 1][..k] == inputs[..k] && during[..k + 1][..k] == during[..k];
        Respond(inputs[k], during[k], old(bus.log), history);
        history := Happens(old(bus.log), bus.cap, batchMax, history, inputs[k], during[k]);
      }
      assert inputs[..|inputs|] == inputs && during[..|inputs|] == during;
    }

    /** One input; the reporter answers a wake-up with a turn. */
    method Respond(input: Input<E>, meanwhile: seq<E>, ghost before: seq<E>, ghost history: seq<Input<E>>)
      requires Valid() && World(bus.log, bus.closed, State()) == Run(before, bus.cap, batchMax, history)
      modifies this, bus`tail, bus`log, bus`closed, bus.slots
      ensures Valid() && bus.slots == old(bus.slots)
      ensures World(bus.log, bus.closed, State())
              == Run(before, bus.cap, batchMax, Happens(before, bus.cap, batchMax, history, input, meanwhile))
    {
      ghost var next := history + [input];
      assert next[..|next| - 1] == history && next + [] == next;
      match input {
        case Emit(event) => if !bus.closed { bus.Emit(event); }
        case Close => bus.closed := true;
        case Wake(branch, accepted) =>
          RunHappens(before, bus.cap, batchMax, history, branch, accepted, meanwhile);
          if running { Step(branch, accepted, meanwhile); }
      }
    }
  }
}
