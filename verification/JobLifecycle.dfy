/** lab/auxpow/auxpow_coordinator.py: the Stratum server's jobs, with variable difficulty on. Each
    method is one handler; the ghost fields record the whole run. */
module JobLifecycle {
  import opened Results

  /** Work is what a block template gives a job; `stale` work is too old a parent template. */
  datatype Job<W> = Job(id: nat, work: W, target: int, difficulty: real, clean: bool)

  datatype Client = Client(subscribed: bool, authorized: bool, difficulty: real, pending: Option<real>,
      active: set<nat>) {
    /** `pending_share_difficulty or share_difficulty` */
    function Desired(): real {
      if pending.Some? && pending.value != 0.0 then pending.value else difficulty
    }

    /** It has asked for work. */
    predicate Ready() {
      subscribed && authorized
    }
  }

  datatype Message =
    | SetDifficulty(client: nat, difficulty: real)
    | Notify(client: nat, id: nat, clean: bool)

  /** A job sent to a client: its target, and the number of refreshes before it. */
  datatype Issue = Issue(client: nat, target: int, epoch: nat)

  /** A share judged against a target: who sent it, for which job, after how many refreshes. */
  datatype Share = Share(client: nat, id: nat, target: int, epoch: nat)

  // ----- what was sent

  /** The k-th message is the notify of an issued job, to its client, right after its difficulty. */
  ghost predicate Announces(issued: map<nat, Issue>, sent: seq<Message>, difficultyOf: int -> real, id: nat, k: int) {
    && 1 <= k < |sent| && id in issued
    && sent[k].Notify? && sent[k].id == id && sent[k].client == issued[id].client
    && sent[k - 1] == SetDifficulty(issued[id].client, difficultyOf(issued[id].target))
  }

  /** If the k-th message is a notify, it announces its job. */
  ghost predicate SaysIssued(issued: map<nat, Issue>, sent: seq<Message>, difficultyOf: int -> real, k: int) {
    0 <= k < |sent| && sent[k].Notify? ==> Announces(issued, sent, difficultyOf, sent[k].id, k)
  }

  /** Two notifies are of two ids. */
  ghost predicate SayTwoIds(sent: seq<Message>, i: int, j: int) {
    0 <= i < j < |sent| && sent[i].Notify? && sent[j].Notify? ==> sent[i].id != sent[j].id
  }

  ghost predicate IsAnnounced(issued: map<nat, Issue>, sent: seq<Message>, difficultyOf: int -> real, id: nat) {
    exists k :: Announces(issued, sent, difficultyOf, id, k)
  }

  /** Every issued job was announced, by one notify only, and nothing else was notified. */
  ghost predicate Announced(issued: map<nat, Issue>, sent: seq<Message>, difficultyOf: int -> real) {
    && (forall k :: SaysIssued(issued, sent, difficultyOf, k))
    && (forall i, j :: SayTwoIds(sent, i, j))
    && (forall id :: id in issued ==> IsAnnounced(issued, sent, difficultyOf, id))
  }

  lemma AnnouncesStill(issued: map<nat, Issue>, sent: seq<Message>, difficultyOf: int -> real, id: nat,
      all: map<nat, Issue>, more: seq<Message>)
    requires IsAnnounced(issued, sent, difficultyOf, id)
    requires sent <= more && id in all && all[id] == issued[id]
    ensures IsAnnounced(all, more, difficultyOf, id)
  {
    var k :| Announces(issued, sent, difficultyOf, id, k);
    assert Announces(all, more, difficultyOf, id, k);
  }

  lemma SaysIssuedStill(issued: map<nat, Issue>, sent: seq<Message>, difficultyOf: int -> real, k: int,
      all: map<nat, Issue>, more: seq<Message>)
    requires SaysIssued(issued, sent, difficultyOf, k) && k < |sent| && sent <= more
    requires forall id :: id in issued ==> id in all && all[id] == issued[id]
    ensures SaysIssued(all, more, difficultyOf, k)
  {
  }

  lemma AnnounceDifficulty(issued: map<nat, Issue>, sent: seq<Message>, difficultyOf: int -> real, c: nat, d: real)
    requires Announced(issued, sent, difficultyOf)
    ensures Announced(issued, sent + [SetDifficulty(c, d)], difficultyOf)
  {
    var more := sent + [SetDifficulty(c, d)];
    forall k
      ensures SaysIssued(issued, more, difficultyOf, k)
    {
      if k < |sent| {
        SaysIssuedStill(issued, sent, difficultyOf, k, issued, more);
      }
    }
    forall i, j
      ensures SayTwoIds(more, i, j)
    {
      assert SayTwoIds(sent, i, j);
    }
    forall id | id in issued
      ensures IsAnnounced(issued, more, difficultyOf, id)
    {
      AnnouncesStill(issued, sent, difficultyOf, id, issued, more);
    }
  }

  lemma AnnounceJob(issued: map<nat, Issue>, sent: seq<Message>, difficultyOf: int -> real, id: nat, issue: Issue,
      clean: bool)
    requires Announced(issued, sent, difficultyOf) && id !in issued
    ensures Announced(issued[id := issue], sent + Announcement(id, issue, difficultyOf, clean), difficultyOf)
  {
    var all, more := issued[id := issue], sent + Announcement(id, issue, difficultyOf, clean);
    assert Announces(all, more, difficultyOf, id, |sent| + 1);
    forall k
      ensures SaysIssued(all, more, difficultyOf, k)
    {
      if k < |sent| {
        SaysIssuedStill(issued, sent, difficultyOf, k, all, more);
      }
    }
    forall i, j
      ensures SayTwoIds(more, i, j)
    {
      assert SayTwoIds(sent, i, j);
      assert SaysIssued(issued, sent, difficultyOf, i);
    }
    forall other | other in all
      ensures IsAnnounced(all, more, difficultyOf, other)
    {
      if other != id {
        AnnouncesStill(issued, sent, difficultyOf, other, all, more);
      }
    }
  }

  /** The messages a job goes out with. */
  function Announcement(id: nat, issue: Issue, difficultyOf: int -> real, clean: bool): seq<Message> {
    [SetDifficulty(issue.client, difficultyOf(issue.target)), Notify(issue.client, id, clean)]
  }

  // ----- the server

  class Server<W(!new)> {
    /** `effective_share_target`, and the difficulty a target stands for. */
    const effective: (real, W) -> int
    const difficultyOf: int -> real
    const startup: real

    var jobs: map<nat, Job<W>>
    var current: Option<Job<W>>
    var counter: nat
    var clients: map<nat, Client>
    var connected: set<nat>
    var connections: nat

    ghost var issued: map<nat, Issue>
    ghost var epoch: nat
    ghost var judged: seq<Share>
    ghost var sent: seq<Message>

    constructor (effective: (real, W) -> int, difficultyOf: int -> real, startup: real)
      ensures Valid() && issued == map[] && judged == [] && sent == [] && clients == map[]
    {
      this.effective, this.difficultyOf, this.startup := effective, difficultyOf, startup;
      jobs, current, counter, clients, connected, connections := map[], None, 0, map[], {}, 0;
      issued, epoch, judged, sent := map[], 0, [], [];
    }

    /** Every id ever sent was drawn from the counter. */
    ghost predicate IdsDrawn()
      reads this
    {
      forall id :: id in issued ==> 1 <= id <= counter && issued[id].epoch <= epoch
    }

    /** A live job is the one that was sent under its id since the last refresh. */
    ghost predicate JobsIssued()
      reads this
    {
      forall id :: id in jobs ==>
        id in issued && jobs[id].id == id && issued[id].target == jobs[id].target && issued[id].epoch == epoch
        && jobs[id].difficulty == difficultyOf(jobs[id].target)
    }

    /** A client's active ids were sent to that client. */
    ghost predicate ActiveOwned()
      reads this
    {
      Owned(clients, issued)
    }

    ghost predicate Owned(clients: map<nat, Client>, issued: map<nat, Issue>) {
      forall c, id :: c in clients && id in clients[c].active ==> id in issued && issued[id].client == c
    }

    /** Every share judged, over the whole run, was judged at the target sent with its job, to the
        client that was sent it, with no refresh in between. */
    ghost predicate JudgedSoundly()
      reads this
    {
      forall k :: 0 <= k < |judged| ==>
        judged[k].id in issued && issued[judged[k].id] == Issue(judged[k].client, judged[k].target, judged[k].epoch)
    }

    ghost predicate Books()
      reads this
    {
      && IdsDrawn() && JobsIssued() && ActiveOwned() && JudgedSoundly()
      && connected <= clients.Keys && (forall c :: c in clients ==> c <= connections)
    }

    /** What every handler keeps: the books, and what they say of the messages sent. */
    ghost predicate Valid()
      reads this
    {
      Books() && Announced(issued, sent, difficultyOf)
    }

    /** Nothing that was sent or judged is ever taken back. */
    twostate predicate Grows()
      reads this
    {
      && old(epoch) <= epoch && old(counter) <= counter
      && (forall id :: id in old(issued) ==> id in issued && issued[id] == old(issued)[id])
      && old(judged) <= judged && old(sent) <= sent
      && old(clients.Keys) <= clients.Keys
    }

    /** `next_job_id` */
    method NextJobId() returns (id: nat)
      requires Books()
      modifies `counter
      ensures counter == old(counter) + 1 && id == counter && id !in issued && Books()
    {
      counter := counter + 1;
      id := counter;
    }

    /** The current job, unless its parent work is stale. */
    function FreshJob(stale: W -> bool): Option<Job<W>>
      reads this
    {
      if current.Some? && stale(current.value.work) then None else current
    }

    function FreshJobs(stale: W -> bool): map<nat, Job<W>>
      reads this
    {
      if current.Some? && stale(current.value.work) then map[] else jobs
    }

    /** `fresh_current_job`: no job of stale parent work. */
    method FreshCurrentJob(stale: W -> bool) returns (job: Option<Job<W>>)
      requires Valid()
      modifies `current, `jobs
      ensures Valid() && job == current
      ensures old(current).Some? && stale(old(current).value.work) ==> current == None && jobs == map[]
      ensures old(current).None? || !stale(old(current).value.work) ==> current == old(current) && jobs == old(jobs)
    {
      if current.Some? && stale(current.value.work) {
        current, jobs := None, map[];
      }
      job := current;
    }

    /** A connection is accepted. */
    method Connect() returns (c: nat)
      requires Valid()
      modifies this
      ensures Valid() && Grows()
      ensures c !in old(clients) && clients == old(clients)[c := Client(false, false, startup, None, {})]
      ensures connected == old(connected) + {c} && jobs == old(jobs) && issued == old(issued) && epoch == old(epoch)
      ensures current == old(current) && judged == old(judged) && sent == old(sent)
    {
      connections := connections + 1;
      c := connections;
      clients := clients[c := Client(false, false, startup, None, {})];
      connected := connected + {c};
    }

    /** `job_for_client`: the base job's work under a new id, at the client's own difficulty. */
    method JobForClient(c: nat, base: Job<W>, clean: bool) returns (job: Job<W>)
      requires Books() && c in clients
      modifies `counter, `jobs, `issued
      ensures Books() && counter == old(counter) + 1 && job.id == counter && job.id !in old(issued)
      ensures job.work == base.work && job.clean == clean
      ensures AimsAt(clients[c], job) && job.difficulty == difficultyOf(job.target)
      ensures jobs == old(jobs)[job.id := job] && issued == old(issued)[job.id := Issue(c, job.target, epoch)]
    {
      var id := NextJobId();
      var target := effective(clients[c].Desired(), base.work);
      job := Job(id, base.work, target, difficultyOf(target), clean);
      jobs, issued := jobs[id := job], issued[id := Issue(c, target, epoch)];
    }

    /** The job's target is that of the difficulty pending for the client, unless none or zero is, and then
        that of the client's own. */
    ghost predicate AimsAt(client: Client, job: Job<W>) {
      match client.pending
      case None => job.target == effective(client.difficulty, job.work)
      case Some(p) => job.target == effective(if p == 0.0 then client.difficulty else p, job.work)
    }

    /** The client, `was` before `job` was sent to it, holds it: a clean job replaces every job it had, and
        a pending difficulty is dropped once its target is the job's. */
    ghost predicate Holds(was: Client, job: Job<W>, now: Client) {
      && now.subscribed == was.subscribed && now.authorized == was.authorized && now.difficulty == job.difficulty
      && now.active == (if job.clean then {job.id} else was.active + {job.id})
      && match was.pending
         case None => now.pending == None
         case Some(p) => now.pending == if effective(p, job.work) == job.target then None else Some(p)
    }

    /** The client's own books, under the lock. */
    method HoldJob(c: nat, job: Job<W>)
      requires Books() && c in clients && job.id in issued && issued[job.id].client == c
      modifies `jobs, `clients
      ensures Books()
      ensures jobs == old(jobs) - (if job.clean then old(clients)[c].active else {})
      ensures c in clients && Holds(old(clients)[c], job, clients[c]) && clients == old(clients)[c := clients[c]]
    {
      var client := clients[c];
      var applied := client.pending.Some? && effective(client.pending.value, job.work) == job.target;
      client := client.(difficulty := job.difficulty);
      if applied {
        client := client.(pending := None);
      }
      if job.clean {
        jobs := jobs - client.active;
        client := client.(active := {});
      }
      client := client.(active := client.active + {job.id});
      clients := clients[c := client];
    }

    /** The job is made and held before anything is sent. */
    method MakeJob(c: nat, base: Job<W>, clean: bool) returns (job: Job<W>)
      requires Books() && c in clients
      modifies `counter, `jobs, `issued, `clients
      ensures Books() && counter == old(counter) + 1 && job.id == counter && job.id !in old(issued)
      ensures job.work == base.work && job.clean == clean
      ensures AimsAt(old(clients)[c], job) && job.difficulty == difficultyOf(job.target)
      ensures issued == old(issued)[job.id := Issue(c, job.target, epoch)]
      ensures jobs == old(jobs)[job.id := job] - (if clean then old(clients)[c].active else {})
      ensures c in clients && Holds(old(clients)[c], job, clients[c]) && clients == old(clients)[c := clients[c]]
    {
      job := JobForClient(c, base, clean);
      HoldJob(c, job);
    }

    /** `send_job_to_client`: a new id, never sent before, with its difficulty before it. */
    method SendJob(c: nat, base: Job<W>, clean: bool) returns (job: Job<W>)
      requires Valid() && c in clients
      modifies this
      ensures Valid() && Grows()
      ensures job.id !in old(issued) && job.work == base.work && job.clean == clean
      ensures old(clients)[c].pending == None || old(clients)[c].pending == Some(0.0) ==>
                job.target == effective(old(clients)[c].difficulty, base.work)
      ensures old(clients)[c].pending.Some? && old(clients)[c].pending.value != 0.0 ==>
                job.target == effective(old(clients)[c].pending.value, base.work)
      ensures job.difficulty == difficultyOf(job.target)
      ensures issued == old(issued)[job.id := Issue(c, job.target, epoch)] && epoch == old(epoch)
      ensures jobs == old(jobs)[job.id := job] - (if clean then old(clients)[c].active else {})
      ensures c in clients && Holds(old(clients)[c], job, clients[c]) && clients == old(clients)[c := clients[c]]
      ensures connected == old(connected) && current == old(current) && judged == old(judged)
      ensures sent == old(sent) + [SetDifficulty(c, job.difficulty), Notify(c, job.id, clean)]
    {
      job := MakeJob(c, base, clean);
      Announce(c, job, clean, old(issued));
    }

    /** `send_difficulty` and `send_job`: what goes to the client's socket. */
    method Announce(c: nat, job: Job<W>, clean: bool, ghost was: map<nat, Issue>)
      requires Books() && Announced(was, sent, difficultyOf) && job.id !in was
      requires issued == was[job.id := Issue(c, job.target, epoch)] && job.difficulty == difficultyOf(job.target)
      modifies `sent
      ensures Valid() && sent == old(sent) + [SetDifficulty(c, job.difficulty), Notify(c, job.id, clean)]
    {
      sent := sent + [SetDifficulty(c, job.difficulty), Notify(c, job.id, clean)];
      AnnounceJob(was, old(sent), difficultyOf, job.id, Issue(c, job.target, epoch), clean);
    }

    /** `disconnect_client`: the client's jobs go with it. */
    method Disconnect(c: nat)
      requires Valid() && c in clients
      modifies this
      ensures Valid() && Grows()
      ensures connected == old(connected) - {c} && jobs == old(jobs) - old(clients)[c].active
      ensures clients == old(clients)[c := old(clients)[c].(active := {})]
      ensures issued == old(issued) && epoch == old(epoch) && sent == old(sent) && judged == old(judged)
              && current == old(current)
    {
      connected := connected - {c};
      jobs := jobs - clients[c].active;
      clients := clients[c := clients[c].(active := {})];
    }

    method MarkRegistered(c: nat, authorize: bool)
      requires Valid() && c in clients
      modifies `clients
      ensures Valid()
      ensures var was := old(clients)[c];
              clients == old(clients)[c := Client(!authorize || was.subscribed, authorize || was.authorized,
                                                  was.difficulty, was.pending, was.active)]
    {
      clients := clients[c := if authorize then clients[c].(authorized := true) else clients[c].(subscribed := true)];
    }

    /** `mining.subscribe` and `mining.authorize`: a client that is both gets the current job. */
    method Register(c: nat, authorize: bool, stale: W -> bool) returns (made: Option<Job<W>>)
      requires Valid() && c in clients
      modifies this
      ensures Valid() && Grows() && epoch == old(epoch) && judged == old(judged) && connected == old(connected)
      ensures current == old(FreshJob(stale))
      ensures made.Some? <==>
                (authorize || old(clients)[c].authorized) && (!authorize || old(clients)[c].subscribed) && current.Some?
      ensures var was := old(clients)[c];
              var client :=
                Client(!authorize || was.subscribed, authorize || was.authorized, was.difficulty, was.pending,
                       was.active);
              && (made.None? ==>
                    clients == old(clients)[c := client] && sent == old(sent) && jobs == old(FreshJobs(stale)))
              && (made.Some? ==>
                    && made.value.work == current.value.work && AimsAt(client, made.value)
                    && made.value.difficulty == difficultyOf(made.value.target)
                    && made.value.clean == current.value.clean && made.value.id !in old(issued)
                    && c in clients && Holds(client, made.value, clients[c]) && clients == old(clients)[c := clients[c]]
                    && jobs == old(FreshJobs(stale))[made.value.id := made.value]
                               - (if made.value.clean then was.active else {})
                    && sent == old(sent) + [SetDifficulty(c, made.value.difficulty),
                                            Notify(c, made.value.id, made.value.clean)])
    {
      MarkRegistered(c, authorize);
      var job := FreshCurrentJob(stale);
      if clients[c].Ready() && job.Some? {
        var sentJob := SendJob(c, job.value, job.value.clean);
        return Some(sentJob);
      }
      made := None;
    }

    /** `job` is the base job's work at the difficulty the client wants. */
    ghost predicate Follows(job: Job<W>, client: Client, base: Job<W>) {
      job.work == base.work && AimsAt(client, job) && job.difficulty == difficultyOf(job.target)
    }

    /** The client, which was `before`, has a live job under `id` that follows the base job. */
    ghost predicate ServedAs(c: nat, before: Client, base: Job<W>, clients: map<nat, Client>, jobs: map<nat, Job<W>>,
        id: nat)
    {
      && c in clients && id in jobs && jobs[id].id == id && Follows(jobs[id], before, base)
         && jobs[id].clean == base.clean
      && Holds(before, jobs[id], clients[c])
    }

    ghost predicate Served(c: nat, before: Client, base: Job<W>, clients: map<nat, Client>, jobs: map<nat, Job<W>>) {
      exists id :: ServedAs(c, before, base, clients, jobs, id)
    }

    /** The clients in `those`, each as it was before, are served. */
    ghost predicate AllServed(
        those: set<nat>, before: map<nat, Client>, base: Job<W>, clients: map<nat, Client>, jobs: map<nat, Job<W>>)
    {
      forall c :: c in those ==> c in before && Served(c, before[c], base, clients, jobs)
    }

    /** They stay so while they and their jobs are left alone. */
    lemma StillServed(those: set<nat>, before: map<nat, Client>, base: Job<W>, clients: map<nat, Client>,
        jobs: map<nat, Job<W>>,
        clients': map<nat, Client>, jobs': map<nat, Job<W>>)
      requires AllServed(those, before, base, clients, jobs) && those <= clients.Keys
      requires forall c :: c in those ==> c in clients' && clients'[c] == clients[c]
      requires KeepsJobs(those, clients, jobs, jobs')
      ensures AllServed(those, before, base, clients', jobs')
    {
      forall c | c in those
        ensures Served(c, before[c], base, clients', jobs')
      {
        var id :| ServedAs(c, before[c], base, clients, jobs, id);
        assert id in clients[c].active;
        assert ServedAs(c, before[c], base, clients', jobs', id);
      }
    }

    /** The jobs of `those` stay live. */
    ghost predicate KeepsJobs(those: set<nat>, clients: map<nat, Client>, jobs: map<nat, Job<W>>,
        jobs': map<nat, Job<W>>)
    {
      forall c, id :: c in those && c in clients && id in clients[c].active && id in jobs ==>
        id in jobs' && jobs'[id] == jobs[id]
    }

    /** Dropping jobs of one client keeps those of every other. */
    lemma KeptByDrop(
        c: nat, those: set<nat>, clients: map<nat, Client>, jobs: map<nat, Job<W>>, issued: map<nat, Issue>,
        gone: set<nat>)
      requires Owned(clients, issued) && c in clients && c !in those && gone <= clients[c].active
      ensures KeepsJobs(those, clients, jobs, jobs - gone)
    {
      forall d, id | d in those && d in clients && id in clients[d].active && id in jobs
        ensures id !in gone
      {
        assert issued[id].client == d;
      }
    }

    /** So does a new job beside them. */
    lemma KeptBySend(those: set<nat>, clients: map<nat, Client>, jobs: map<nat, Job<W>>, issued: map<nat, Issue>,
        gone: set<nat>, made: Job<W>)
      requires Owned(clients, issued) && KeepsJobs(those, clients, jobs, jobs - gone) && made.id !in issued
      ensures KeepsJobs(those, clients, jobs, jobs[made.id := made] - gone)
    {
      forall d, id | d in those && d in clients && id in clients[d].active && id in jobs
        ensures id in jobs[made.id := made] - gone && (jobs[made.id := made] - gone)[id] == jobs[id]
      {
        assert id in jobs - gone && id in issued;
      }
    }

    /** The other clients are served as they were. */
    lemma OthersServed(c: nat, others: set<nat>, before: map<nat, Client>, base: Job<W>, clients: map<nat, Client>,
        jobs: map<nat, Job<W>>, issued: map<nat, Issue>, gone: set<nat>, made: Job<W>, clients': map<nat, Client>)
      requires Owned(clients, issued) && c in clients && c !in others && gone <= clients[c].active && made.id !in issued
      requires AllServed(others, before, base, clients, jobs) && others <= clients.Keys
      requires forall d :: d in others ==> d in clients' && clients'[d] == clients[d]
      ensures AllServed(others, before, base, clients', jobs[made.id := made] - gone)
    {
      KeptByDrop(c, others, clients, jobs, issued, gone);
      KeptBySend(others, clients, jobs, issued, gone, made);
      StillServed(others, before, base, clients, jobs, clients', jobs[made.id := made] - gone);
    }

    lemma OneMoreServed(
        c: nat, those: set<nat>, before: map<nat, Client>, base: Job<W>, clients: map<nat, Client>,
        jobs: map<nat, Job<W>>, id: nat)
      requires AllServed(those, before, base, clients, jobs) && c in before
               && ServedAs(c, before[c], base, clients, jobs, id)
      ensures AllServed(those + {c}, before, base, clients, jobs)
    {
    }

    /** A job that was just sent serves its client. */
    lemma SentServes(c: nat, was: Client, base: Job<W>, made: Job<W>, jobs: map<nat, Job<W>>, gone: set<nat>,
        clients: map<nat, Client>)
      requires made.work == base.work && made.clean == base.clean && AimsAt(was, made)
      requires made.difficulty == difficultyOf(made.target) && made.id !in gone
      requires c in clients && Holds(was, made, clients[c])
      ensures ServedAs(c, was, base, clients, jobs[made.id := made] - gone, made.id)
    {
    }

    /** What was sent since went to client `c`. */
    ghost predicate SentOnlyTo(before: seq<Message>, sent: seq<Message>, c: nat) {
      before <= sent && forall k :: |before| <= k < |sent| ==> sent[k].client == c
    }

    /** And leaves the other clients served. */
    lemma SendServes(c: nat, others: set<nat>, before: map<nat, Client>, base: Job<W>, clients: map<nat, Client>,
        jobs: map<nat, Job<W>>, issued: map<nat, Issue>, made: Job<W>, clients': map<nat, Client>,
        jobs': map<nat, Job<W>>)
      requires Owned(clients, issued) && c in clients && c !in others && others <= clients.Keys && made.id !in issued
      requires AllServed(others, before, base, clients, jobs) && c in before && before[c] == clients[c]
      requires made.work == base.work && made.clean == base.clean && AimsAt(before[c], made)
      requires made.difficulty == difficultyOf(made.target) && c in clients'
      requires clients' == clients[c := clients'[c]] && Holds(before[c], made, clients'[c])
      requires jobs' == jobs[made.id := made] - (if base.clean then clients[c].active else {})
      ensures AllServed(others + {c}, before, base, clients', jobs') && OnlyNew(jobs, jobs', base)
    {
      var gone := if base.clean then clients[c].active else {};
      SentServes(c, before[c], base, made, jobs, gone, clients');
      OthersServed(c, others, before, base, clients, jobs, issued, gone, made, clients');
      OneMoreServed(c, others, before, base, clients', jobs', made.id);
      OnlyMadeNew(jobs, made, gone, base);
    }

    /** One client of a broadcast. */
    method SendTo(c: nat, base: Job<W>, ghost others: set<nat>, ghost before: map<nat, Client>)
      requires Valid() && c in clients && c !in others && others <= clients.Keys && c in before
               && before[c] == clients[c]
      requires AllServed(others, before, base, clients, jobs)
      modifies this
      ensures Valid() && Grows() && epoch == old(epoch) && judged == old(judged) && current == old(current)
      ensures connected == old(connected) && OnlyNew(old(jobs), jobs, base) && SentOnlyTo(old(sent), sent, c)
      ensures clients.Keys == old(clients.Keys)
              && (forall d :: d in clients && d != c ==> clients[d] == old(clients)[d])
      ensures AllServed(others + {c}, before, base, clients, jobs)
    {
      var made := SendJob(c, base, base.clean);
      SendServes(c, others, before, base, old(clients), old(jobs), old(issued), made, clients, jobs);
    }

    /** One whose socket fails. */
    method Drop(c: nat, base: Job<W>, ghost others: set<nat>, ghost before: map<nat, Client>)
      requires Valid() && c in clients && c !in others && others <= clients.Keys
      requires AllServed(others, before, base, clients, jobs)
      modifies this
      ensures Valid() && Grows() && epoch == old(epoch) && judged == old(judged) && current == old(current)
      ensures connected == old(connected) - {c} && OnlyNew(old(jobs), jobs, base) && sent == old(sent)
      ensures clients.Keys == old(clients.Keys)
              && (forall d :: d in clients && d != c ==> clients[d] == old(clients)[d])
      ensures AllServed(others, before, base, clients, jobs)
    {
      KeptByDrop(c, others, clients, jobs, issued, clients[c].active);
      Disconnect(c);
      StillServed(others, before, base, old(clients), old(jobs), clients, jobs);
    }

    method Serve(c: nat, base: Job<W>, broken: bool, ghost others: set<nat>, ghost before: map<nat, Client>)
      requires Valid() && c in clients && c !in others && others <= clients.Keys && c in before
               && before[c] == clients[c]
      requires AllServed(others, before, base, clients, jobs)
      modifies this
      ensures Valid() && Grows() && epoch == old(epoch) && judged == old(judged) && current == old(current)
      ensures connected == old(connected) - (if broken then {c} else {})
      ensures OnlyNew(old(jobs), jobs, base) && SentOnlyTo(old(sent), sent, c)
      ensures clients.Keys == old(clients.Keys)
              && (forall d :: d in clients && d != c ==> clients[d] == old(clients)[d])
      ensures AllServed(others + (if broken then {} else {c}), before, base, clients, jobs)
    {
      SendTo(c, base, others, before);
      if broken {
        ghost var between := jobs;
        Drop(c, base, others, before);
        OnlyNewThen(old(jobs), between, jobs, base);
      }
    }

    /** The jobs that are not as they were are of the base job's work. */
    ghost predicate OnlyNew(before: map<nat, Job<W>>, after: map<nat, Job<W>>, base: Job<W>) {
      forall id :: id in after ==> (id in before && after[id] == before[id]) || after[id].work == base.work
    }

    lemma OnlyMadeNew(jobs: map<nat, Job<W>>, made: Job<W>, gone: set<nat>, base: Job<W>)
      requires made.work == base.work
      ensures OnlyNew(jobs, jobs[made.id := made] - gone, base)
    {
    }

    lemma OnlyNewThen(before: map<nat, Job<W>>, between: map<nat, Job<W>>, after: map<nat, Job<W>>, base: Job<W>)
      requires OnlyNew(before, between, base) && OnlyNew(between, after, base)
      ensures OnlyNew(before, after, base)
    {
    }

    /** The ready connections whose socket fails are gone, and no others. */
    ghost predicate OnlyBrokenGone(was: set<nat>, now: set<nat>, clients: map<nat, Client>, broken: set<nat>) {
      now <= was && forall c :: c in was && c in clients ==>
        (c in now <==> !(c in broken && clients[c].subscribed && clients[c].authorized))
    }

    /** Every ready connection is served. */
    ghost predicate ReadyServed(
        those: set<nat>, before: map<nat, Client>, base: Job<W>, clients: map<nat, Client>, jobs: map<nat, Job<W>>)
    {
      forall c :: c in those && c in before && before[c].subscribed && before[c].authorized ==>
        Served(c, before[c], base, clients, jobs)
    }

    /** Every client that is not both subscribed and authorized is as it was. */
    ghost predicate UnreadyKept(before: map<nat, Client>, clients: map<nat, Client>) {
      forall c :: c in before && !(before[c].subscribed && before[c].authorized) ==>
        c in clients && clients[c] == before[c]
    }

    /** From the `from`-th on, messages go only to clients that are both. */
    ghost predicate OnlyToReady(sent: seq<Message>, from: nat, before: map<nat, Client>) {
      forall k :: from <= k < |sent| ==>
        sent[k].client in before && before[sent[k].client].subscribed && before[sent[k].client].authorized
    }

    /** Part of the way through a broadcast to the connections that were there, with `todo` to come. */
    ghost predicate Serving(todo: set<nat>, was: set<nat>, before: map<nat, Client>, base: Job<W>, broken: set<nat>,
        from: nat)
      reads this
    {
      && UnreadyKept(before, clients) && OnlyToReady(sent, from, before)
      && todo <= connected <= was <= before.Keys == clients.Keys
      && (forall c :: c in todo ==> clients[c] == before[c])
      && OnlyBrokenGone(was - todo, connected - todo, before, broken)
      && ReadyServed(connected - todo, before, base, clients, jobs)
    }

    method ServeNext(c: nat, ghost todo: set<nat>, ghost was: set<nat>, ghost before: map<nat, Client>, base: Job<W>,
        broken: set<nat>, ghost from: nat)
      requires Valid() && c !in todo && Serving(todo + {c}, was, before, base, broken, from)
      modifies this
      ensures Valid() && Grows() && epoch == old(epoch) && judged == old(judged) && current == old(current)
      ensures OnlyNew(old(jobs), jobs, base)
      ensures Serving(todo, was, before, base, broken, from)
    {
      ghost var served := set d | d in connected - todo && d != c && before[d].subscribed && before[d].authorized;
      assert c in todo + {c};
      if clients[c].Ready() {
        Serve(c, base, c in broken, served, before);
      }
    }

    /** `broadcast_job`: `broken` are the connections whose socket fails. */
    method Broadcast(job: Job<W>, broken: set<nat>)
      requires Valid()
      modifies this
      ensures Valid() && Grows() && epoch == old(epoch) && judged == old(judged) && current == old(current)
      ensures OnlyNew(old(jobs), jobs, job)
      ensures OnlyBrokenGone(old(connected), connected, old(clients), broken)
      ensures ReadyServed(connected, old(clients), job, clients, jobs)
      ensures UnreadyKept(old(clients), clients) && OnlyToReady(sent, |old(sent)|, old(clients))
    {
      var todo := connected;
      while todo != {}
        invariant Valid() && Grows() && Serving(todo, old(connected), old(clients), job, broken, |old(sent)|)
        invariant epoch == old(epoch) && judged == old(judged) && current == old(current)
        invariant OnlyNew(old(jobs), jobs, job)
        decreases |todo|
      {
        var c :| c in todo;
        assert todo - {c} + {c} == todo;
        todo := todo - {c};
        ServeNext(c, todo, old(connected), old(clients), job, broken, |old(sent)|);
      }
      assert connected - todo == connected && old(connected) - todo == old(connected);
    }

    /** The new template becomes the current job, and no job is live. */
    method TakeTemplate(template: W, fixed: real) returns (job: Job<W>)
      requires Valid()
      modifies `counter, `current, `jobs, `epoch
      ensures Valid() && Grows() && epoch == old(epoch) + 1 && jobs == map[] && current == Some(job)
      ensures job.work == template && job.clean && job.id !in issued
      ensures job.target == effective(fixed, template) && job.difficulty == difficultyOf(job.target)
    {
      var id := NextJobId();
      var target := effective(fixed, template);
      job := Job(id, template, target, difficultyOf(target), true);
      current, jobs := Some(job), map[];
      epoch := epoch + 1;
    }

    /** `refresh_job`. `template` is what the nodes give, None when a call to them or the template's
        validation fails; `due` tells a forced refresh, a new tip or an old job. */
    method Refresh(stale: W -> bool, due: bool, template: Option<W>, fixed: real, broken: set<nat>)
        returns (refreshed: bool)
      requires Valid()
      modifies this
      ensures Valid() && Grows() && judged == old(judged)
      ensures refreshed <==> (due || old(FreshJob(stale)).None?) && template.Some?
      ensures epoch == old(epoch) + if refreshed then 1 else 0
      ensures !refreshed ==>
              current == old(FreshJob(stale)) && jobs == old(FreshJobs(stale)) && clients == old(clients)
                && sent == old(sent)
      ensures refreshed ==>
                && (forall id :: id in old(issued) ==> id !in jobs)
                && (forall id :: id in jobs ==> jobs[id].work == template.value)
                && current.Some? && current.value.clean && current.value.work == template.value
                && current.value.target == effective(fixed, template.value)
                && current.value.difficulty == difficultyOf(current.value.target) && current.value.id !in old(issued)
                && OnlyBrokenGone(old(connected), connected, old(clients), broken)
                && ReadyServed(connected, old(clients), current.value, clients, jobs)
                && UnreadyKept(old(clients), clients) && OnlyToReady(sent, |old(sent)|, old(clients))
    {
      var job := FreshCurrentJob(stale);
      if job.Some? && !due {
        return false;
      }
      if template.None? {
        return false;
      }
      var made := TakeTemplate(template.value, fixed);
      Broadcast(made, broken);
      refreshed := true;
      assert forall id :: id in old(issued) ==> issued[id].epoch < epoch;
    }

    /** `handle_submit`, up to the target a share is judged at: None is the "stale job" error. */
    method Submit(c: nat, id: nat, stale: W -> bool) returns (target: Option<int>)
      requires Valid() && c in clients
      modifies this
      ensures Valid() && Grows() && issued == old(issued) && epoch == old(epoch) && clients == old(clients)
      ensures target.Some? <==> id in old(jobs) && !stale(old(jobs)[id].work) && id in clients[c].active
      ensures target.Some? ==>
                && jobs == old(jobs) && target.value == jobs[id].target
                && issued[id] == Issue(c, target.value, epoch)
                && judged == old(judged) + [Share(c, id, target.value, epoch)]
      ensures target.None? ==> judged == old(judged)
      ensures sent == old(sent) && connected == old(connected)
      ensures var late := id in old(jobs) && stale(old(jobs)[id].work);
              var all := late && old(current).Some? && stale(old(current).value.work);
              && current == (if all then None else old(current))
              && jobs == (if all then map[] else if late then old(jobs) - {id} else old(jobs))
    {
      var job := if id in jobs then Some(jobs[id]) else None;
      if job.Some? && stale(job.value.work) {
        jobs := jobs - {id};
        if current.Some? && stale(current.value.work) {
          current, jobs := None, map[];
        }
        job := None;
      }
      if job.Some? && id !in clients[c].active {
        job := None;
      }
      if job.None? {
        return None;
      }
      judged := judged + [Share(c, id, job.value.target, epoch)];
      target := Some(job.value.target);
    }

    /** What is sent to client `c`, `was` before, whose retarget to `next` is applied: in the clean mode a
        clean job of the current work `base` if there is one, and otherwise the difficulty alone. */
    ghost predicate Applied(c: nat, was: Client, base: Option<Job<W>>, clean: bool, next: real, made: Option<Job<W>>,
        messages: seq<Message>)
    {
      && (made.Some? <==> clean && base.Some?)
      && (made.None? ==> messages == [SetDifficulty(c, next)])
      && (made.Some? ==>
            && made.value.work == base.value.work && AimsAt(was, made.value) && made.value.clean
            && made.value.difficulty == difficultyOf(made.value.target)
            && messages == [SetDifficulty(c, made.value.difficulty), Notify(c, made.value.id, true)])
    }

    /** The client's record after that, and once its socket has failed. */
    ghost predicate LeftAs(was: Client, made: Option<Job<W>>, broken: bool, now: Client) {
      && now.active == (if broken then {} else if made.Some? then {made.value.id} else was.active)
      && if made.None? then now == was.(active := now.active)
         else made.value.clean && Holds(was, made.value, now.(active := {made.value.id}))
    }

    /** And the live jobs. */
    ghost predicate JobsLeft(was: Client, jobs: map<nat, Job<W>>, made: Option<Job<W>>, broken: bool,
        now: map<nat, Job<W>>)
    {
      if broken then now == jobs - was.active
      else if made.Some? then now == jobs[made.value.id := made.value] - was.active
      else now == jobs
    }

    method Apply(c: nat, next: real, clean: bool, stale: W -> bool) returns (made: Option<Job<W>>)
      requires Valid() && c in clients
      modifies this
      ensures Valid() && Grows() && epoch == old(epoch) && judged == old(judged) && connected == old(connected)
      ensures made.Some? ==> made.value.id !in old(issued)
      ensures old(sent) <= sent
              && Applied(c, old(clients)[c], old(FreshJob(stale)), clean, next, made, sent[|old(sent)|..])
      ensures c in clients && LeftAs(old(clients)[c], made, false, clients[c])
              && clients == old(clients)[c := clients[c]]
      ensures JobsLeft(old(clients)[c], old(FreshJobs(stale)), made, false, jobs)
    {
      var job := FreshCurrentJob(stale);
      if clean && job.Some? {
        var sentJob := SendJob(c, job.value, true);
        return Some(sentJob);
      }
      AnnounceDifficulty(issued, sent, difficultyOf, c, next);
      sent := sent + [SetDifficulty(c, next)];
      made := None;
    }

    /** Dropping a job that was just made leaves what there was. */
    lemma MadeDropped(jobs: map<nat, Job<W>>, made: Job<W>, gone: set<nat>)
      requires made.id !in jobs
      ensures jobs[made.id := made] - gone - {made.id} == jobs - gone
    {
    }

    method ApplyOrDrop(c: nat, next: real, clean: bool, stale: W -> bool, broken: bool) returns (made: Option<Job<W>>)
      requires Valid() && c in clients
      modifies this
      ensures Valid() && Grows() && epoch == old(epoch) && judged == old(judged)
      ensures connected == old(connected) - (if broken then {c} else {})
      ensures made.Some? ==> made.value.id !in old(issued)
      ensures old(sent) <= sent
              && Applied(c, old(clients)[c], old(FreshJob(stale)), clean, next, made, sent[|old(sent)|..])
      ensures c in clients && LeftAs(old(clients)[c], made, broken, clients[c])
              && clients == old(clients)[c := clients[c]]
      ensures JobsLeft(old(clients)[c], old(FreshJobs(stale)), made, broken, jobs)
    {
      made := Apply(c, next, clean, stale);
      if broken {
        ghost var live, was := old(FreshJobs(stale)), old(clients)[c];
        if made.Some? {
          MadeDropped(live, made.value, was.active);
        }
        Disconnect(c);
      }
    }

    /** In the clean mode, with work and a difficulty other than zero, that is a job of that difficulty. */
    lemma AppliedToJob(c: nat, was: Client, base: Option<Job<W>>, clean: bool, next: real, made: Option<Job<W>>,
        messages: seq<Message>, broken: bool, now: Client)
      requires Applied(c, was.(pending := Some(next)), base, clean, next, made, messages)
      requires LeftAs(was.(pending := Some(next)), made, broken, now)
      ensures clean && base.Some? && next != 0.0 ==>
                && made.Some? && made.value.work == base.value.work
                && made.value.target == effective(next, base.value.work)
                && made.value.difficulty == difficultyOf(made.value.target)
                && messages == [SetDifficulty(c, made.value.difficulty), Notify(c, made.value.id, true)]
                && (!broken ==> now == Client(was.subscribed, was.authorized, made.value.difficulty, None,
                                              {made.value.id}))
    {
    }

    method SetPending(c: nat, next: real)
      requires Valid() && c in clients
      modifies `clients
      ensures Valid() && clients == old(clients)[c := old(clients)[c].(pending := Some(next))]
    {
      clients := clients[c := clients[c].(pending := Some(next))];
    }

    /** `retarget_client`, from a current difficulty read earlier: `worth` is `should_retarget`, and
        `clean` the mode that sends a new job rather than the difficulty alone. */
    method Retarget(c: nat, currentDifficulty: real, next: real, worth: bool, clean: bool, stale: W -> bool,
        broken: bool)
        returns (made: Option<Job<W>>)
      requires Valid() && c in clients
      modifies this
      ensures Valid() && Grows() && epoch == old(epoch) && judged == old(judged) && c in clients
      ensures var was := old(clients)[c];
              var previous := if was.pending.Some? && was.pending.value != 0.0 then was.pending.value
                  else was.difficulty;
              && (!worth || previous != currentDifficulty ==>
                    clients == old(clients) && jobs == old(jobs) && sent == old(sent) && connected == old(connected))
              && (worth && previous == currentDifficulty == next ==>
                    && clients == old(clients)[c := was.(pending := Some(next))]
                    && jobs == old(jobs) && sent == old(sent) && connected == old(connected))
              && (worth && previous == currentDifficulty != next ==>
                    && clients == old(clients)[c := clients[c]]
                    && connected == old(connected) - (if broken then {c} else {})
                    && old(sent) <= sent
                    && Applied(c, was.(pending := Some(next)), old(FreshJob(stale)), clean, next, made,
                               sent[|old(sent)|..])
                    && (made.Some? ==> made.value.id !in old(issued))
                    && LeftAs(was.(pending := Some(next)), made, broken, clients[c])
                    && JobsLeft(was, old(FreshJobs(stale)), made, broken, jobs))
              // In the clean mode, to a difficulty other than zero, with fresh work.
              && (worth && previous == currentDifficulty != next && next != 0.0 && clean && old(current).Some?
                  && !stale(old(current).value.work) ==>
                    && made.Some? && made.value.work == old(current).value.work
                    && made.value.target == effective(next, old(current).value.work)
                    && made.value.difficulty == difficultyOf(made.value.target)
                    && sent == old(sent) + [SetDifficulty(c, made.value.difficulty), Notify(c, made.value.id, true)]
                    && (!broken ==>
                          && clients[c] == Client(was.subscribed, was.authorized, made.value.difficulty, None,
                                                  {made.value.id})
                          && jobs == old(jobs)[made.value.id := made.value] - was.active))
    {
      made := None;
      if !worth {
        return;
      }
      var previous := clients[c].Desired();
      if previous != currentDifficulty {
        return;
      }
      SetPending(c, next);
      if next == previous {
        return;
      }
      made := ApplyOrDrop(c, next, clean, stale, broken);
      AppliedToJob(c, old(clients)[c], old(FreshJob(stale)), clean, next, made, sent[|old(sent)|..], broken,
                   clients[c]);
      assert sent == old(sent) + sent[|old(sent)|..];
    }
  }

  /** No id is active for two clients at once. */
  lemma ActiveDisjoint<W(!new)>(server: Server<W>, c: nat, d: nat)
    requires server.Valid() && c in server.clients && d in server.clients && c != d
    ensures server.clients[c].active !! server.clients[d].active
  {
    forall id | id in server.clients[c].active
      ensures id !in server.clients[d].active
    {
      assert server.issued[id].client == c;
    }
  }

  /** The m-th message is the only notify of the share's job, to the client that sent it, right after
      that difficulty. */
  ghost predicate Advertised(sent: seq<Message>, share: Share, difficulty: real, m: int) {
    && 1 <= m < |sent| && sent[m].Notify? && sent[m].id == share.id && sent[m].client == share.client
    && sent[m - 1] == SetDifficulty(share.client, difficulty)
    && forall n :: 0 <= n < |sent| && sent[n].Notify? && sent[n].id == share.id ==> n == m
  }

  /** Every judged share is of a job that was announced to the client that sent it, once, right after
      the difficulty of the target it was judged at. */
  lemma JudgedAsAdvertised<W(!new)>(server: Server<W>, k: nat)
    requires server.Valid() && k < |server.judged|
    ensures exists m :: Advertised(server.sent, server.judged[k], server.difficultyOf(server.judged[k].target), m)
  {
    var share := server.judged[k];
    assert server.issued[share.id] == Issue(share.client, share.target, share.epoch);
    assert IsAnnounced(server.issued, server.sent, server.difficultyOf, share.id);
    var m :| Announces(server.issued, server.sent, server.difficultyOf, share.id, m);
    forall n | 0 <= n < |server.sent| && server.sent[n].Notify? && server.sent[n].id == share.id
      ensures n == m
    {
      assert SayTwoIds(server.sent, n, m) && SayTwoIds(server.sent, m, n);
    }
    assert Advertised(server.sent, share, server.difficultyOf(share.target), m);
  }
}
