/** Automatic reminders for unfinished applications: who is due
    (adapters/storage/application_drafts.py), the hourly job that mails and then stamps
    (features/applications/drafts_reminder.py), and what happens beside it: nudges by hand, saves,
    edits of a link. Times are integers. */
module DraftReminders {
  import opened Common

  /** A link: how often it reminds, how many times in all, and whether it is alive. */
  datatype Link = Link(every: int, most: nat, active: bool, expiresAt: Option<int>)

  datatype Draft = Draft(link: string, updatedAt: int, remindedAt: Option<int>, sent: nat)

  type Links = map<string, Link>

  type Drafts = map<int, Draft>

  // ---- Who is due ----

  /** What the SELECT asks; its join drops a draft whose link is gone. */
  predicate Candidate(links: Links, d: Draft) {
    d.link in links && var l := links[d.link]; l.every > 0 && l.active && d.sent < l.most
  }

  /** What the loop asks of a candidate. */
  predicate Due(l: Link, d: Draft, now: int) {
    && (l.expiresAt.Some? ==> now <= l.expiresAt.value)
    && now - d.updatedAt >= l.every
    && (d.remindedAt.Some? ==> now - d.remindedAt.value >= l.every)
  }

  predicate DueRow(links: Links, drafts: Drafts, id: int, now: int) {
    id in drafts && drafts[id].link in links && Due(links[drafts[id].link], drafts[id], now)
  }

  /** The due ones, in order. */
  function DueOf(links: Links, drafts: Drafts, rows: seq<int>, now: int): seq<int> {
    if rows == [] then []
    else
      var rest := DueOf(links, drafts, rows[..|rows| - 1], now);
      if DueRow(links, drafts, rows[|rows| - 1], now) then rest + [rows[|rows| - 1]] else rest
  }

  function Take(s: seq<int>, n: nat): seq<int> {
    if |s| <= n then s else s[..n]
  }

  /** The rows the SELECT returns: distinct candidates, oldest first, and every candidate left
      out is at least as new. */
  ghost predicate SelectedRows(links: Links, drafts: Drafts, rows: seq<int>, limit: nat) {
    && |rows| <= limit && NoRepeat(rows)
    && (forall i | 0 <= i < |rows| :: rows[i] in drafts && Candidate(links, drafts[rows[i]]))
    && (forall i, j | 0 <= i < j < |rows| :: drafts[rows[i]].updatedAt <= drafts[rows[j]].updatedAt)
    && (forall id, i | id in drafts && Candidate(links, drafts[id]) && id !in rows && 0 <= i < |rows| ::
          drafts[rows[i]].updatedAt <= drafts[id].updatedAt)
    && (|rows| < limit ==> forall id | id in drafts && Candidate(links, drafts[id]) :: id in rows)
  }

  /** The loop over the selected rows, with its early exit. */
  method ListDraftsNeedingReminder(links: Links, drafts: Drafts, rows: seq<int>, limit: nat, now: int)
    returns (due: seq<int>)
    requires SelectedRows(links, drafts, rows, 3 * limit) && limit > 0
    ensures due == Take(DueOf(links, drafts, rows, now), limit)
  {
    due := [];
    var i := 0;
    while i < |rows|
      invariant i <= |rows| && |due| < limit
      invariant due == DueOf(links, drafts, rows[..i], now)
    {
      var d := drafts[rows[i]];
      var l := links[d.link];
      assert rows[..i + 1][..i] == rows[..i];
      i := i + 1;
      if (l.expiresAt.Some? && now > l.expiresAt.value)
         || now - d.updatedAt < l.every
         || (d.remindedAt.Some? && now - d.remindedAt.value < l.every)
      {
        continue;
      }
      due := due + [rows[i - 1]];
      if |due| >= limit {
        DueOfPrefix(links, drafts, rows, i, now);
        return;
      }
    }
    assert rows[..i] == rows;
  }

  lemma {:induction false} DueOfPrefix(links: Links, drafts: Drafts, rows: seq<int>, i: nat, now: int)
    requires i <= |rows|
    ensures DueOf(links, drafts, rows[..i], now) <= DueOf(links, drafts, rows, now)
    decreases |rows|
  {
    if i == |rows| {
      assert rows[..i] == rows;
    } else {
      var front := rows[..|rows| - 1];
      assert front[..i] == rows[..i];
      DueOfPrefix(links, drafts, front, i, now);
    }
  }

  /** It lists exactly the due rows it looked at: each once, none that is not due, and all of
      them when they fit. */
  lemma {:induction false} DueOfMembers(links: Links, drafts: Drafts, rows: seq<int>, now: int)
    requires NoRepeat(rows)
    ensures forall id :: id in DueOf(links, drafts, rows, now) <==> id in rows && DueRow(links, drafts, id, now)
    ensures NoRepeat(DueOf(links, drafts, rows, now)) && |DueOf(links, drafts, rows, now)| <= |rows|
  {
    if rows != [] {
      var front, last := rows[..|rows| - 1], rows[|rows| - 1];
      DueOfMembers(links, drafts, front, now);
      assert rows == front + [last];
      assert last !in front;
    }
  }

  // ---- The job, and what happens beside it ----

  /** What the listed row in the job's hand says: cadence, cap, and reminders counted so far. */
  datatype Listed = Listed(every: int, most: nat, sent: nat)

  /** A mail that went out: the k-th of all, to which draft and when; an automatic one with the
      row it was sent for. */
  datatype Mail =
    | ByHand(k: nat, id: int, at: int)
    | Auto(k: nat, id: int, at: int, row: Listed)

  /** A run of the job: when it listed, the rows listed, whom it has still to write to, the mail
      that is out and not stamped yet, and every mail that the listing could not know of: those
      whose stamp had not landed by then, and those sent since. */
  datatype Batch = Batch(start: int, rows: map<int, Listed>, pending: seq<int>, flying: Option<Mail>, unseen: set<Mail>)

  /** `mails` is every mail that went out; those in `open` have no stamp. One job runs at a time. */
  datatype World = World(links: Links, drafts: Drafts, used: set<int>, clock: int, batch: Option<Batch>, next: nat,
    mails: set<Mail>, open: set<Mail>)

  /** Mail and stamp are two steps. A nudge by hand that is never stamped takes its first step
      only; the job goes on after a failed stamp, and may die at any moment. */
  datatype Step =
    | Tick(now: int)
    | SetLink(link: string, l: Link)
    | DropLink(link: string)
    | Save(id: int, link: string)
    | Remove(id: int)
    | NudgeMail(id: int)
    | NudgeStamp(m: Mail)
    | Begin(rows: seq<int>, limit: nat)
    | Send(ok: bool)
    | Stamp
    | StampFails
    | Finish

  /** A nudge looked at the stamp before it mails; by then that may be out of date, so nothing is
      asked of it here. */
  ghost predicate Possible(w: World, s: Step) {
    match s
    case Tick(now) => now >= w.clock
    case Save(id, link) => if id in w.drafts then link == w.drafts[id].link else id !in w.used
    case NudgeMail(id) => id in w.used
    case NudgeStamp(m) => m in w.open && m.ByHand?
    case Begin(rows, limit) => w.batch.None? && limit > 0 && SelectedRows(w.links, w.drafts, rows, 3 * limit)
    case Send(_) => w.batch.Some? && w.batch.value.flying.None? && w.batch.value.pending != []
    case Stamp => w.batch.Some? && w.batch.value.flying.Some?
    case StampFails => w.batch.Some? && w.batch.value.flying.Some?
    case _ => true
  }

  function ListedOf(links: Links, drafts: Drafts, due: seq<int>): map<int, Listed> {
    map id | id in due && id in drafts && drafts[id].link in links ::
      Listed(links[drafts[id].link].every, links[drafts[id].link].most, drafts[id].sent)
  }

  /** A mail goes out, and waits for its stamp. */
  function Mailed(w: World, m: Mail): World {
    w.(next := w.next + 1, mails := w.mails + {m}, open := w.open + {m},
       batch := if w.batch.None? then None
                else Some(w.batch.value.(unseen := w.batch.value.unseen + {m})))
  }

  /** The UPDATE that stamps a draft finds no row when the draft is gone. */
  function Stamped(w: World, m: Mail): World {
    if m.id !in w.drafts then w
    else
      var d := w.drafts[m.id].(remindedAt := Some(w.clock));
      w.(drafts := w.drafts[m.id := if m.Auto? then d.(sent := d.sent + 1) else d], open := w.open - {m})
  }

  ghost function Apply(w: World, s: Step): World
    requires Possible(w, s)
  {
    match s
    case Tick(now) => w.(clock := now)
    case SetLink(link, l) => w.(links := w.links[link := l])
    case DropLink(link) => w.(links := w.links - {link})
    case Save(id, link) =>
      if id in w.drafts then w.(drafts := w.drafts[id := w.drafts[id].(updatedAt := w.clock)])
      else w.(drafts := w.drafts[id := Draft(link, w.clock, None, 0)], used := w.used + {id})
    case Remove(id) => w.(drafts := w.drafts - {id})
    case NudgeMail(id) => Mailed(w, ByHand(w.next, id, w.clock))
    case NudgeStamp(m) => Stamped(w, m)
    case Begin(rows, limit) =>
      var due := Take(DueOf(w.links, w.drafts, rows, w.clock), limit);
      w.(batch := Some(Batch(w.clock, ListedOf(w.links, w.drafts, due), due, None, w.open)))
    case Send(ok) =>
      var b := w.batch.value;
      var id := b.pending[0];
      var next := w.(batch := Some(b.(pending := b.pending[1..])));
      if ok && id in b.rows then
        var m := Auto(w.next, id, w.clock, b.rows[id]);
        var out := Mailed(next, m);
        out.(batch := Some(out.batch.value.(flying := Some(m))))
      else next
    case Stamp => Stamped(w, w.batch.value.flying.value).(batch := Some(w.batch.value.(flying := None)))
    case StampFails => w.(batch := Some(w.batch.value.(flying := None)))
    case Finish => w.(batch := None)
  }

  ghost predicate PossibleRun(w: World, steps: seq<Step>)
    decreases |steps|
  {
    steps == [] || (Possible(w, steps[0]) && PossibleRun(Apply(w, steps[0]), steps[1..]))
  }

  ghost function Run(w: World, steps: seq<Step>): World
    requires PossibleRun(w, steps)
    decreases |steps|
  {
    if steps == [] then w else Run(Apply(w, steps[0]), steps[1..])
  }

  const START := World(map[], map[], {}, 0, None, 0, {}, {})

  // ---- Mails and stamps ----

  /** The automatic reminders of a draft. */
  function Autos(mails: set<Mail>, id: int): set<Mail> {
    set m | m in mails && m.Auto? && m.id == id
  }

  function Before(mails: set<Mail>, m: Mail): set<Mail> {
    set l | l in mails && l.Auto? && l.id == m.id && l.k < m.k
  }

  function Flying(w: World): set<Mail> {
    if w.batch.Some? && w.batch.value.flying.Some? then {w.batch.value.flying.value} else {}
  }

  /** The mails whose stamp is lost: not landed, and never to land. */
  function Lost(w: World): set<Mail> {
    w.open - Flying(w)
  }

  // ---- What every run keeps ----

  ghost predicate MailsOk(w: World) {
    && w.open <= w.mails && Flying(w) <= w.open
    && w.drafts.Keys <= w.used
    && (forall m | m in w.mails :: m.k < w.next && m.at <= w.clock && m.id in w.used)
    && (forall l, m | l in w.mails && m in w.mails && l.k == m.k :: l == m)
  }

  /** The counter is the number of automatic reminders that were stamped, and the shared stamp is
      no older than any stamped mail. */
  ghost predicate DraftOk(w: World, id: int) {
    id in w.drafts ==>
      var d := w.drafts[id];
      && |Autos(w.mails, id)| == d.sent + |Autos(w.open, id)|
      && (d.remindedAt.Some? ==> d.remindedAt.value <= w.clock)
      && (forall m | m in w.mails && m.id == id && m !in w.open ::
            d.remindedAt.Some? && m.at <= d.remindedAt.value)
  }

  /** An automatic reminder came a cadence after every earlier one that is stamped, and its row
      counted exactly those. The mail in flight is the last of its draft. */
  ghost predicate AutoOk(w: World, m: Mail) {
    m.Auto? ==>
      && m.row.sent < m.row.most
      && |Before(w.mails, m)| == m.row.sent + |Before(w.open, m)|
      && (forall l | l in Before(w.mails, m) && l !in w.open :: m.at - l.at >= m.row.every)
      && (forall l | l in Flying(w) :: l !in Before(w.mails, m))
  }

  /** Whoever waits in the batch: the row in the job's hand is still right about the counter, and
      every mail the listing could know of was a cadence old by then. */
  ghost predicate PendingOk(w: World, b: Batch, id: int) {
    && id in w.used && id in b.rows && b.rows[id].sent < b.rows[id].most
    && |Autos(w.mails, id)| == b.rows[id].sent + |Autos(w.open, id)|
    && (forall m | m in w.mails && m.id == id && m !in b.unseen :: b.start - m.at >= b.rows[id].every)
    && Autos(b.unseen, id) <= w.open
    && (b.flying.Some? ==> b.flying.value.id != id)
  }

  ghost predicate BatchOk(w: World, b: Batch) {
    && b.start <= w.clock && b.unseen <= w.mails && NoRepeat(b.pending)
    && (b.flying.Some? ==> b.flying.value.Auto?)
    && (forall i | 0 <= i < |b.pending| :: PendingOk(w, b, b.pending[i]))
  }

  ghost predicate Inv(w: World) {
    && MailsOk(w)
    && (forall id: int :: DraftOk(w, id))
    && (forall m | m in w.mails :: AutoOk(w, m))
    && (w.batch.Some? ==> BatchOk(w, w.batch.value))
  }

  lemma AutosPlus(mails: set<Mail>, m: Mail, id: int)
    ensures Autos(mails + {m}, id) == Autos(mails, id) + if m.Auto? && m.id == id then {m} else {}
    ensures m !in mails && m.Auto? && m.id == id ==> |Autos(mails + {m}, id)| == |Autos(mails, id)| + 1
  {
    assert Autos(mails + {m}, id) == Autos(mails, id) + if m.Auto? && m.id == id then {m} else {};
  }

  lemma AutosMinus(mails: set<Mail>, m: Mail, id: int)
    ensures Autos(mails - {m}, id) == Autos(mails, id) - {m}
    ensures m in mails && m.Auto? && m.id == id ==> |Autos(mails - {m}, id)| == |Autos(mails, id)| - 1
    ensures !(m.Auto? && m.id == id) ==> Autos(mails - {m}, id) == Autos(mails, id)
  {
    assert Autos(mails - {m}, id) == Autos(mails, id) - {m};
    assert !(m.Auto? && m.id == id) ==> m !in Autos(mails, id);
  }

  lemma BeforePlus(mails: set<Mail>, l: Mail, m: Mail)
    requires l.k >= m.k
    ensures Before(mails + {l}, m) == Before(mails, m)
  {
  }

  lemma BeforeMinus(mails: set<Mail>, l: Mail, m: Mail)
    requires l !in Before(mails, m)
    ensures Before(mails - {l}, m) == Before(mails, m)
  {
  }

  /** All the automatic reminders of a draft came before the next mail. */
  lemma BeforeNext(mails: set<Mail>, m: Mail)
    requires m.Auto? && forall l | l in mails :: l.k < m.k
    ensures Before(mails + {m}, m) == Autos(mails, m.id)
  {
  }

  lemma TakeKeeps(s: seq<int>, n: nat)
    ensures |Take(s, n)| <= |s| && forall i | 0 <= i < |Take(s, n)| :: Take(s, n)[i] == s[i]
  {
  }

  // ---- Each step keeps the invariant ----

  lemma MailedKeepsDraft(w: World, m: Mail, id: int)
    requires DraftOk(w, id) && m !in w.mails && m !in w.open && m.k == w.next && m.at == w.clock
    ensures DraftOk(Mailed(w, m), id)
  {
    AutosPlus(w.mails, m, id);
    AutosPlus(w.open, m, id);
  }

  lemma MailedKeepsAuto(w: World, m: Mail, l: Mail)
    requires AutoOk(w, l) && l.k < m.k
    ensures AutoOk(Mailed(w, m), l)
  {
    BeforePlus(w.mails, m, l);
    BeforePlus(w.open, m, l);
  }

  /** A new mail disturbs nothing that was sent before. */
  lemma MailedKeeps(w: World, m: Mail)
    requires Inv(w) && m.k == w.next && m.at == w.clock && m.id in w.used
    ensures var w' := Mailed(w, m);
            && MailsOk(w')
            && (forall id: int :: DraftOk(w', id))
            && (forall l | l in w.mails :: AutoOk(w', l))
  {
    assert m !in w.mails;
    forall id: int ensures DraftOk(Mailed(w, m), id) {
      MailedKeepsDraft(w, m, id);
    }
    forall l | l in w.mails ensures AutoOk(Mailed(w, m), l) {
      MailedKeepsAuto(w, m, l);
    }
  }

  /** Nor whoever waits in the batch, if it is a nudge or to somebody else. */
  lemma MailedKeepsPending(w: World, b: Batch, m: Mail, id: int, b': Batch)
    requires PendingOk(w, b, id) && !(m.Auto? && m.id == id)
    requires b'.start == b.start && b'.rows == b.rows && b'.unseen == b.unseen + {m}
    requires b'.flying.Some? ==> b'.flying.value.id != id
    ensures PendingOk(Mailed(w, m), b', id)
  {
    AutosPlus(w.mails, m, id);
    AutosPlus(w.open, m, id);
    AutosPlus(b.unseen, m, id);
  }

  lemma NudgeKeepsInv(w: World, id: int)
    requires Inv(w) && Possible(w, NudgeMail(id))
    ensures Inv(Apply(w, NudgeMail(id)))
  {
    var m := ByHand(w.next, id, w.clock);
    var w' := Apply(w, NudgeMail(id));
    MailedKeeps(w, m);
    if w.batch.Some? {
      var b, b' := w.batch.value, w'.batch.value;
      forall i | 0 <= i < |b'.pending| ensures PendingOk(w', b', b'.pending[i]) {
        MailedKeepsPending(w, b, m, b.pending[i], b');
      }
    }
  }

  lemma SendKeepsInv(w: World, ok: bool)
    requires Inv(w) && Possible(w, Send(ok))
    ensures Inv(Apply(w, Send(ok)))
  {
    var b, w' := w.batch.value, Apply(w, Send(ok));
    var b' := w'.batch.value;
    var id := b.pending[0];
    assert PendingOk(w, b, id);
    var m := Auto(w.next, id, w.clock, b.rows[id]);
    if ok {
      MailedKeeps(w, m);
      SentIsOk(w, m);
      assert Mailed(w, m).mails == w'.mails && Mailed(w, m).open == w'.open;
      forall j: int ensures DraftOk(w', j) {
        assert DraftOk(Mailed(w, m), j);
      }
      forall l | l in w'.mails ensures AutoOk(w', l) {
        assert l in w.mails ==> AutoOk(Mailed(w, m), l);
      }
    } else {
      forall j: int ensures DraftOk(w', j) {
        assert DraftOk(w, j);
      }
      forall l | l in w'.mails ensures AutoOk(w', l) {
        assert AutoOk(w, l);
      }
    }
    forall i | 0 <= i < |b'.pending| ensures PendingOk(w', b', b'.pending[i]) {
      assert b'.pending[i] == b.pending[i + 1] && PendingOk(w, b, b.pending[i + 1]);
      assert b.pending[0] != b.pending[i + 1];
      if ok {
        MailedKeepsPending(w, b, m, b.pending[i + 1], b');
      }
    }
  }

  /** The new automatic reminder came a cadence after every stamped one. */
  lemma SentIsOk(w: World, m: Mail)
    requires Inv(w) && Possible(w, Send(true)) && w.batch.value.pending[0] in w.batch.value.rows
    requires m == Auto(w.next, w.batch.value.pending[0], w.clock, w.batch.value.rows[w.batch.value.pending[0]])
    ensures AutoOk(Apply(w, Send(true)), m)
  {
    var b, w' := w.batch.value, Apply(w, Send(true));
    assert PendingOk(w, b, m.id);
    BeforeNext(w.mails, m);
    BeforeNext(w.open, m);
    forall l | l in Before(w'.mails, m) && l !in w'.open ensures m.at - l.at >= m.row.every {
      assert l in Autos(b.unseen, m.id) ==> l in w.open;
    }
  }

  lemma StampedKeeps(w: World, m: Mail)
    requires Inv(w) && m in w.open && (m.Auto? ==> m in Flying(w))
    ensures var w' := Stamped(w, m);
            && (forall id: int :: DraftOk(w', id))
            && (forall l | l in w.mails && l.Auto? ::
                  && |Before(w'.mails, l)| == l.row.sent + |Before(w'.open, l)|
                  && (forall e | e in Before(w.mails, l) && e !in w'.open :: l.at - e.at >= l.row.every))
  {
    var w' := Stamped(w, m);
    forall id: int ensures DraftOk(w', id) {
      assert DraftOk(w, id);
      AutosMinus(w.open, m, id);
    }
    forall l | l in w.mails && l.Auto?
      ensures |Before(w'.mails, l)| == l.row.sent + |Before(w'.open, l)|
      ensures forall e | e in Before(w.mails, l) && e !in w'.open :: l.at - e.at >= l.row.every
    {
      assert AutoOk(w, l);
      assert m !in Before(w.mails, l);
      BeforeMinus(w.open, m, l);
    }
  }

  lemma StampKeepsBatch(w: World, s: Step, m: Mail)
    requires Inv(w) && Possible(w, s) && (s == NudgeStamp(m) || (s == Stamp && Flying(w) == {m}))
    requires w.batch.Some? && m in w.open && (m.Auto? ==> m in Flying(w))
    ensures Apply(w, s).batch.Some? && BatchOk(Apply(w, s), Apply(w, s).batch.value)
  {
    var w' := Apply(w, s);
    var b, b' := w.batch.value, w'.batch.value;
    forall i | 0 <= i < |b'.pending| ensures PendingOk(w', b', b'.pending[i]) {
      assert PendingOk(w, b, b.pending[i]);
      AutosMinus(w.open, m, b.pending[i]);
    }
  }

  lemma StampShape(w: World, s: Step, m: Mail)
    requires Possible(w, s) && (s == NudgeStamp(m) || (s == Stamp && Flying(w) == {m}))
    ensures var w', x := Apply(w, s), Stamped(w, m);
            && w'.mails == w.mails && w'.open == x.open && w.open - {m} <= w'.open <= w.open
            && w'.drafts == x.drafts && w'.drafts.Keys == w.drafts.Keys && w'.used == w.used
            && w'.clock == w.clock && w'.next == w.next
            && Flying(w') == (if s.Stamp? then {} else Flying(w))
            && (w'.batch.Some? <==> w.batch.Some?)
  {
  }

  lemma StampKeepsInv(w: World, s: Step, m: Mail)
    requires Inv(w) && Possible(w, s) && (s == NudgeStamp(m) || (s == Stamp && Flying(w) == {m}))
    ensures Inv(Apply(w, s))
  {
    var w' := Apply(w, s);
    assert m in w.open && (m.Auto? ==> m in Flying(w));
    StampShape(w, s, m);
    StampKeepsMails(w, s, m);
    if w'.batch.Some? {
      StampKeepsBatch(w, s, m);
    }
  }

  lemma StampKeepsMails(w: World, s: Step, m: Mail)
    requires Inv(w) && Possible(w, s) && (s == NudgeStamp(m) || (s == Stamp && Flying(w) == {m}))
    requires m in w.open && (m.Auto? ==> m in Flying(w))
    ensures MailsOk(Apply(w, s))
    ensures forall id: int :: DraftOk(Apply(w, s), id)
    ensures forall l | l in w.mails :: AutoOk(Apply(w, s), l)
  {
    var w' := Apply(w, s);
    StampShape(w, s, m);
    StampedKeeps(w, m);
    assert s.NudgeStamp? ==> m !in Flying(w);
    forall id: int ensures DraftOk(w', id) {
      assert DraftOk(Stamped(w, m), id);
    }
    forall l | l in w.mails ensures AutoOk(w', l) {
      assert AutoOk(w, l);
    }
  }

  lemma BeginKeepsInv(w: World, rows: seq<int>, limit: nat)
    requires Inv(w) && Possible(w, Begin(rows, limit))
    ensures Inv(Apply(w, Begin(rows, limit)))
  {
    var w' := Apply(w, Begin(rows, limit));
    var due := DueOf(w.links, w.drafts, rows, w.clock);
    DueOfMembers(w.links, w.drafts, rows, w.clock);
    TakeKeeps(due, limit);
    forall id: int ensures DraftOk(w', id) {
      assert DraftOk(w, id);
    }
    forall m | m in w'.mails ensures AutoOk(w', m) {
      assert AutoOk(w, m);
    }
    var b := w'.batch.value;
    forall i | 0 <= i < |b.pending| ensures PendingOk(w', b, b.pending[i]) {
      assert due[i] in due;
      assert b.pending[i] in b.pending;
      assert DraftOk(w, b.pending[i]);
    }
  }

  /** No mail goes out and no stamp lands. */
  predicate Quiet(s: Step) {
    s.Tick? || s.SetLink? || s.DropLink? || s.Save? || s.Remove? || s.StampFails? || s.Finish?
  }

  lemma QuietKeepsDraft(w: World, s: Step, id: int)
    requires Inv(w) && Possible(w, s) && Quiet(s)
    ensures DraftOk(Apply(w, s), id)
  {
    assert DraftOk(w, id);
    if id !in w.used {
      assert Autos(w.mails, id) == {} && Autos(w.open, id) == {};
    }
  }

  lemma QuietKeepsBatch(w: World, s: Step)
    requires Inv(w) && Possible(w, s) && Quiet(s) && Apply(w, s).batch.Some?
    ensures BatchOk(Apply(w, s), Apply(w, s).batch.value)
  {
    var w' := Apply(w, s);
    var b, b' := w.batch.value, w'.batch.value;
    assert w'.mails == w.mails && w'.open == w.open && w.used <= w'.used;
    forall i | 0 <= i < |b'.pending| ensures PendingOk(w', b', b'.pending[i]) {
      assert PendingOk(w, b, b.pending[i]);
    }
  }

  lemma QuietKeepsInv(w: World, s: Step)
    requires Inv(w) && Possible(w, s) && Quiet(s)
    ensures Inv(Apply(w, s))
  {
    var w' := Apply(w, s);
    assert w'.mails == w.mails && w'.open == w.open && Flying(w') <= Flying(w);
    forall id: int ensures DraftOk(w', id) {
      QuietKeepsDraft(w, s, id);
    }
    forall m | m in w'.mails ensures AutoOk(w', m) {
      assert AutoOk(w, m);
    }
    if w'.batch.Some? {
      QuietKeepsBatch(w, s);
    }
  }

  lemma StepKeepsInv(w: World, s: Step)
    requires Inv(w) && Possible(w, s)
    ensures Inv(Apply(w, s))
  {
    match s
    case Begin(rows, limit) => BeginKeepsInv(w, rows, limit);
    case Send(ok) => SendKeepsInv(w, ok);
    case NudgeMail(id) => NudgeKeepsInv(w, id);
    case NudgeStamp(m) => StampKeepsInv(w, s, m);
    case Stamp => StampKeepsInv(w, s, w.batch.value.flying.value);
    case _ => QuietKeepsInv(w, s);
  }

  lemma {:induction false} RunKeepsInv(w: World, steps: seq<Step>)
    requires Inv(w) && PossibleRun(w, steps)
    ensures Inv(Run(w, steps))
    decreases |steps|
  {
    if steps != [] {
      StepKeepsInv(w, steps[0]);
      RunKeepsInv(Apply(w, steps[0]), steps[1..]);
    }
  }

  // ---- What is promised of the mails ----

  /** Fewer were sent before than the link allows in all. */
  predicate WithinCap(mails: set<Mail>, m: Mail) {
    m.Auto? ==> |Before(mails, m)| < m.row.most
  }

  /** Every automatic reminder before it was a cadence earlier. */
  ghost predicate Spaced(mails: set<Mail>, m: Mail) {
    m.Auto? ==> forall l | l in Before(mails, m) :: m.at - l.at >= m.row.every
  }

  /** Over every run: the automatic reminders of a draft are those its counter counts, those whose
      stamp was lost, and the one in flight. */
  lemma RemindersAreCounted(steps: seq<Step>, id: int)
    requires PossibleRun(START, steps) && id in Run(START, steps).drafts
    ensures var w := Run(START, steps);
            |Autos(w.mails, id)| == w.drafts[id].sent + |Autos(Lost(w), id)| + |Autos(Flying(w), id)|
  {
    RunKeepsInv(START, steps);
    var w := Run(START, steps);
    assert DraftOk(w, id);
    assert Autos(w.open, id) == Autos(Lost(w), id) + Autos(Flying(w), id);
    assert Autos(Lost(w), id) !! Autos(Flying(w), id);
  }

  /** A reminder that goes out keeps the cap exactly when fewer stamps of the draft were lost than
      the listed row has reminders left, and the cadence exactly when every reminder whose stamp
      was lost is a cadence back. */
  lemma SendKeepsPolicyIff(w: World)
    requires Inv(w) && Possible(w, Send(true))
    ensures var b := w.batch.value;
            var id := b.pending[0];
            && id in b.rows
            && var r, m := b.rows[id], Auto(w.next, id, w.clock, b.rows[id]);
               var mails := Apply(w, Send(true)).mails;
               && m in mails
               && (WithinCap(mails, m) <==> |Autos(Lost(w), id)| < r.most - r.sent)
               && (Spaced(mails, m) <==> forall l | l in Autos(Lost(w), id) :: w.clock - l.at >= r.every)
  {
    var b := w.batch.value;
    assert PendingOk(w, b, b.pending[0]);
    var m := Auto(w.next, b.pending[0], w.clock, b.rows[b.pending[0]]);
    BeforeNext(w.mails, m);
    SentIsOk(w, m);
    BeforeNext(w.open, m);
    assert Lost(w) == w.open;
    assert forall l | l in Autos(w.mails, m.id) && l !in Autos(w.open, m.id) :: w.clock - l.at >= m.row.every;
  }

  /** Before each automatic reminder the lost stamps were fewer than the reminders its row had
      left, and the mails they were for a cadence back. */
  ghost predicate LossesDoNoHarm(w: World, id: int) {
    forall m | m in Autos(w.mails, id) ::
      && |Before(Lost(w), m)| < m.row.most - m.row.sent
      && forall l | l in Before(Lost(w), m) :: m.at - l.at >= m.row.every
  }

  ghost predicate PolicyHolds(w: World, id: int) {
    forall m | m in Autos(w.mails, id) :: WithinCap(w.mails, m) && Spaced(w.mails, m)
  }

  lemma LostBefore(w: World, m: Mail)
    requires Inv(w) && m in w.mails && m.Auto?
    ensures Before(Lost(w), m) == Before(w.open, m)
  {
    assert AutoOk(w, m);
  }

  /** Over every run, whatever happens to stamps, links and drafts: all automatic reminders of a
      draft kept cap and cadence, as its link had them when each was listed, exactly when before
      each the lost stamps were fewer than the reminders left and their mails a cadence back. */
  lemma PolicyHoldsIff(steps: seq<Step>, id: int)
    requires PossibleRun(START, steps)
    ensures PolicyHolds(Run(START, steps), id) <==> LossesDoNoHarm(Run(START, steps), id)
  {
    RunKeepsInv(START, steps);
    var w := Run(START, steps);
    forall m | m in Autos(w.mails, id)
      ensures WithinCap(w.mails, m) <==> |Before(Lost(w), m)| < m.row.most - m.row.sent
      ensures Spaced(w.mails, m) <==> forall l | l in Before(Lost(w), m) :: m.at - l.at >= m.row.every
    {
      assert AutoOk(w, m);
      LostBefore(w, m);
      assert Before(w.open, m) <= Before(w.mails, m);
    }
  }

  /** In particular when no stamp of the draft was lost. */
  lemma NoLossKeepsPolicy(steps: seq<Step>, id: int)
    requires PossibleRun(START, steps) && Autos(Lost(Run(START, steps)), id) == {}
    ensures PolicyHolds(Run(START, steps), id)
  {
    RunKeepsInv(START, steps);
    PolicyHoldsIff(steps, id);
    var w := Run(START, steps);
    forall m | m in Autos(w.mails, id) ensures Before(Lost(w), m) == {} && m.row.sent < m.row.most {
      assert AutoOk(w, m);
      assert Before(Lost(w), m) <= Autos(Lost(w), id);
    }
  }

  lemma {:induction false} LastOf(ms: set<Mail>) returns (m: Mail)
    requires ms != {}
    ensures m in ms && forall l | l in ms :: l.k <= m.k
    decreases ms
  {
    m := SomeMember(ms);
    if ms != {m} {
      var l := LastOf(ms - {m});
      assert forall e | e in ms :: e == m || e in ms - {m};
      m := if l.k > m.k then l else m;
    }
  }

  /** While a link promises at most `most`, at least `every` apart: a draft gets no more than that
      and one for each lost stamp, and any two are a cadence apart unless the stamp of the first
      was lost. */
  lemma RemindersAreCappedAndSpaced(steps: seq<Step>, id: int, most: nat, every: int)
    requires PossibleRun(START, steps)
    requires forall m | m in Autos(Run(START, steps).mails, id) :: m.row.most <= most && m.row.every >= every
    ensures var w := Run(START, steps);
            && |Autos(w.mails, id)| <= most + |Autos(Lost(w), id)|
            && forall l, m | l in Autos(w.mails, id) && m in Autos(w.mails, id) && l.k < m.k && l !in Lost(w) ::
                 m.at - l.at >= every
  {
    RunKeepsInv(START, steps);
    var w := Run(START, steps);
    CappedButForLosses(w, id, most);
    forall l, m | l in Autos(w.mails, id) && m in Autos(w.mails, id) && l.k < m.k && l !in Lost(w)
      ensures m.at - l.at >= every
    {
      SpacedButForLosses(w, l, m);
    }
  }

  lemma AllBeforeLast(mails: set<Mail>, m: Mail)
    requires m in mails && m.Auto? && forall l | l in Autos(mails, m.id) :: l == m || l.k < m.k
    ensures |Autos(mails, m.id)| == |Before(mails, m)| + 1
  {
    assert Autos(mails, m.id) == Before(mails, m) + {m};
  }

  lemma CappedButForLosses(w: World, id: int, most: nat)
    requires Inv(w) && forall m | m in Autos(w.mails, id) :: m.row.most <= most
    ensures |Autos(w.mails, id)| <= most + |Autos(Lost(w), id)|
  {
    var all := Autos(w.mails, id);
    if all != {} {
      var m := LastOf(all);
      assert AutoOk(w, m);
      LostBefore(w, m);
      AllBeforeLast(w.mails, m);
      SubsetSize(Before(Lost(w), m), Autos(Lost(w), id));
    }
  }

  lemma SpacedButForLosses(w: World, l: Mail, m: Mail)
    requires Inv(w) && m in w.mails && m.Auto? && l in Before(w.mails, m) && l !in Lost(w)
    ensures m.at - l.at >= m.row.every
  {
    assert AutoOk(w, m);
    LostBefore(w, m);
  }

  /** The stamp is all that keeps a draft from the next listing: when it lands the draft is not
      due for a cadence after the mail, and when it fails the table says what it said before. */
  lemma StampDecides(w: World, now: int, links: Links)
    requires Inv(w) && Possible(w, Send(true))
    ensures var w1 := Apply(w, Send(true));
            var id := w.batch.value.pending[0];
            && Possible(w1, Stamp) && Possible(w1, StampFails)
            && Apply(w1, StampFails).drafts == w.drafts
            && (DueRow(links, Apply(w1, Stamp).drafts, id, now) ==>
                  now - w.clock >= links[w.drafts[id].link].every)
  {
    assert PendingOk(w, w.batch.value, w.batch.value.pending[0]);
  }

  lemma {:induction false} RunConcat(w: World, a: seq<Step>, b: seq<Step>)
    requires PossibleRun(w, a) && PossibleRun(Run(w, a), b)
    ensures PossibleRun(w, a + b) && Run(w, a + b) == Run(Run(w, a), b)
    decreases |a|
  {
    if a == [] {
      assert a + b == b;
    } else {
      assert (a + b)[0] == a[0] && (a + b)[1..] == a[1..] + b;
      RunConcat(Apply(w, a[0]), a[1..], b);
    }
  }

  const ONCE_A_DAY := Link(24, 1, true, None)

  const FORGETFUL := [Begin([1], 1)] + ([Send(true)] + ([StampFails] + ([Finish] + [])))

  lemma RunCons(w: World, s: Step, rest: seq<Step>)
    requires Possible(w, s) && PossibleRun(Apply(w, s), rest)
    ensures PossibleRun(w, [s] + rest) && Run(w, [s] + rest) == Run(Apply(w, s), rest)
  {
    assert ([s] + rest)[0] == s && ([s] + rest)[1..] == rest;
  }

  /** One idle draft of that link, on the hour. */
  predicate OneIdleDraft(w: World) {
    && w.links == map["a" := ONCE_A_DAY] && w.drafts == map[1 := Draft("a", 0, None, 0)]
    && w.clock == 24 && w.batch.None?
  }

  lemma ListsTheDraft(w: World)
    requires OneIdleDraft(w)
    ensures Possible(w, Begin([1], 1))
    ensures Apply(w, Begin([1], 1)) == w.(batch := Some(Batch(24, map[1 := Listed(24, 1, 0)], [1], None, w.open)))
  {
    assert DueOf(w.links, w.drafts, [1][..0], 24) == [];
    assert DueOf(w.links, w.drafts, [1], 24) == [1];
    assert ListedOf(w.links, w.drafts, [1]) == map[1 := Listed(24, 1, 0)];
  }

  /** What one run of the job leaves that loses the stamp. */
  function MailedInVain(w: World): World {
    var m := Auto(w.next, 1, 24, Listed(24, 1, 0));
    w.(next := w.next + 1, mails := w.mails + {m}, open := w.open + {m})
  }

  lemma SendsAndForgets(w: World, b: Batch)
    requires OneIdleDraft(w) && b == Batch(24, map[1 := Listed(24, 1, 0)], [1], None, w.open)
    ensures var rest := [Send(true)] + ([StampFails] + ([Finish] + []));
            PossibleRun(w.(batch := Some(b)), rest) && Run(w.(batch := Some(b)), rest) == MailedInVain(w)
  {
    var w1 := w.(batch := Some(b));
    var w2 := Apply(w1, Send(true));
    var w3 := Apply(w2, StampFails);
    assert Apply(w3, Finish) == MailedInVain(w);
    RunCons(w3, Finish, []);
    RunCons(w2, StampFails, [Finish] + []);
    RunCons(w1, Send(true), [StampFails] + ([Finish] + []));
  }

  lemma MailsAndForgets(w: World)
    requires OneIdleDraft(w)
    ensures PossibleRun(w, FORGETFUL) && Run(w, FORGETFUL) == MailedInVain(w)
  {
    var b := Batch(24, map[1 := Listed(24, 1, 0)], [1], None, w.open);
    ListsTheDraft(w);
    SendsAndForgets(w, b);
    RunCons(w, Begin([1], 1), [Send(true)] + ([StampFails] + ([Finish] + [])));
  }

  /** The other way it need not be: the last mail of a draft may lose its stamp and do no harm. */
  lemma ALossAloneDoesNoHarm(w: World)
    requires OneIdleDraft(w) && w.mails == {} && w.open == {}
    ensures PossibleRun(w, FORGETFUL)
    ensures var w' := Run(w, FORGETFUL);
            |Autos(Lost(w'), 1)| == 1 && PolicyHolds(w', 1)
  {
    MailsAndForgets(w);
    var w', m := MailedInVain(w), Auto(w.next, 1, 24, Listed(24, 1, 0));
    assert Autos(Lost(w'), 1) == {m} && Autos(w'.mails, 1) == {m};
    assert Before(w'.mails, m) == {};
  }

  /** A link that allows one reminder and a day between two; the stamp fails; and the next run of
      the job mails the draft again at the same hour. */
  lemma LostStampMailsTwice()
    ensures var steps := [SetLink("a", ONCE_A_DAY)] + ([Save(1, "a")] + ([Tick(24)] + (FORGETFUL + FORGETFUL)));
            && PossibleRun(START, steps)
            && var w, row := Run(START, steps), Listed(24, 1, 0);
               && w.mails == {Auto(0, 1, 24, row), Auto(1, 1, 24, row)}
               && !WithinCap(w.mails, Auto(1, 1, 24, row)) && !Spaced(w.mails, Auto(1, 1, 24, row))
  {
    var s0, s1, s2 := SetLink("a", ONCE_A_DAY), Save(1, "a"), Tick(24);
    var row := Listed(24, 1, 0);
    var m0, m1 := Auto(0, 1, 24, row), Auto(1, 1, 24, row);
    var a := Apply(START, s0);
    var b := Apply(a, s1);
    var w0 := Apply(b, s2);
    MailsAndForgets(w0);
    MailsAndForgets(Run(w0, FORGETFUL));
    RunConcat(w0, FORGETFUL, FORGETFUL);
    RunCons(b, s2, FORGETFUL + FORGETFUL);
    RunCons(a, s1, [s2] + (FORGETFUL + FORGETFUL));
    RunCons(START, s0, [s1] + ([s2] + (FORGETFUL + FORGETFUL)));
    var mails := {} + {m0} + {m1};
    assert mails == {m0, m1};
    assert Before(mails, m1) == {m0};
  }

  // ---- Mails of every kind ----

  /** A reminder that goes out is a cadence from every mail to its draft, by hand or not, exactly
      when those the listing could not know of are: sent since, or not stamped by then. */
  lemma MailIsSpacedIff(w: World)
    requires Inv(w) && Possible(w, Send(true))
    ensures var b := w.batch.value;
            var id := b.pending[0];
            && id in b.rows
            && ((forall m | m in w.mails && m.id == id :: w.clock - m.at >= b.rows[id].every) <==>
                (forall m | m in b.unseen && m.id == id :: w.clock - m.at >= b.rows[id].every))
  {
    assert PendingOk(w, w.batch.value, w.batch.value.pending[0]);
  }

  /** The same over a whole run, from the listing of a batch to a mail of it. */
  lemma EveryMailIsSpacedIff(steps: seq<Step>, id: int)
    requires PossibleRun(START, steps) && Possible(Run(START, steps), Send(true))
    requires Run(START, steps).batch.value.pending[0] == id
    ensures var w := Run(START, steps);
            var b := w.batch.value;
            && id in b.rows
            && ((forall m | m in w.mails && m.id == id :: w.clock - m.at >= b.rows[id].every) <==>
                (forall m | m in b.unseen && m.id == id :: w.clock - m.at >= b.rows[id].every))
  {
    RunKeepsInv(START, steps);
    MailIsSpacedIff(Run(START, steps));
  }

  /** A recruiter nudges a draft that is waiting in the batch, mail and stamp: the job mails it at
      the same moment. */
  lemma NudgeInMidBatchDoubles(w: World, id: int)
    requires Inv(w) && Possible(w, Send(true)) && w.batch.value.pending[0] == id
    ensures var w1 := Apply(w, NudgeMail(id));
            && Possible(w, NudgeMail(id)) && Possible(w1, NudgeStamp(ByHand(w.next, id, w.clock)))
            && var w2 := Apply(w1, NudgeStamp(ByHand(w.next, id, w.clock)));
               && Possible(w2, Send(true)) && id in w.batch.value.rows
               && Apply(w2, Send(true)).mails ==
                  w.mails + {ByHand(w.next, id, w.clock), Auto(w.next + 1, id, w.clock, w.batch.value.rows[id])}
  {
    assert PendingOk(w, w.batch.value, id);
    var n, m := ByHand(w.next, id, w.clock), Auto(w.next + 1, id, w.clock, w.batch.value.rows[id]);
    var w1 := Apply(w, NudgeMail(id));
    var w2 := Apply(w1, NudgeStamp(n));
    assert w1.mails == w.mails + {n} == w2.mails && w1.next == w.next + 1 == w2.next;
    assert w2.batch == w1.batch && w2.clock == w.clock;
    assert Apply(w2, Send(true)).mails == w2.mails + {m};
    assert w.mails + {n} + {m} == w.mails + {n, m};
  }

  // ---- Who is due, and each step, field by field ----

  /** The draft's link is there, on, and has reminders left for it. */
  predicate OptedIn(links: Links, d: Draft) {
    && d.link in links && links[d.link].every >= 1 && links[d.link].active && links[d.link].most >= d.sent + 1
  }

  /** Its link has not expired, and neither the last save nor the last stamp is less than a cadence
      back; exactly a cadence is enough. */
  predicate IsTime(l: Link, d: Draft, now: int) {
    && (l.expiresAt == None || l.expiresAt.value >= now)
    && d.updatedAt + l.every <= now
    && (d.remindedAt == None || d.remindedAt.value + l.every <= now)
  }

  /** A draft is listed exactly when it was selected and its time has come; what is selected is
      opted in; and the listing keeps the order of the selection, the longest idle first. */
  lemma DueInFields(links: Links, drafts: Drafts, rows: seq<int>, limit: nat, now: int, id: int)
    requires SelectedRows(links, drafts, rows, limit)
    ensures id in DueOf(links, drafts, rows, now) <==>
            id in rows && id in drafts && OptedIn(links, drafts[id]) && IsTime(links[drafts[id].link], drafts[id], now)
    ensures id in drafts && OptedIn(links, drafts[id]) && id !in rows ==>
              |rows| == limit && forall i | 0 <= i < |rows| :: drafts[rows[i]].updatedAt <= drafts[id].updatedAt
  {
    DueOfMembers(links, drafts, rows, now);
    if id in rows {
      var i :| 0 <= i < |rows| && rows[i] == id;
      assert Candidate(links, drafts[rows[i]]);
    }
    if id in drafts && OptedIn(links, drafts[id]) {
      assert Candidate(links, drafts[id]);
    }
  }

  /** The k-th of the listing is a row selected no earlier than the k-th. */
  lemma {:induction false} DueKeepsOrder(links: Links, drafts: Drafts, rows: seq<int>, now: int, i: nat, j: nat)
    returns (p: nat, q: nat)
    requires i < j < |DueOf(links, drafts, rows, now)|
    ensures i <= p < q < |rows| && rows[p] == DueOf(links, drafts, rows, now)[i]
    ensures rows[q] == DueOf(links, drafts, rows, now)[j]
  {
    var front := rows[..|rows| - 1];
    var rest := DueOf(links, drafts, front, now);
    if j < |rest| {
      p, q := DueKeepsOrder(links, drafts, front, now, i, j);
    } else {
      p := DueComesFrom(links, drafts, front, now, i);
      q := |rows| - 1;
    }
  }

  lemma {:induction false} DueComesFrom(links: Links, drafts: Drafts, rows: seq<int>, now: int, i: nat) returns (p: nat)
    requires i < |DueOf(links, drafts, rows, now)|
    ensures i <= p < |rows| && rows[p] == DueOf(links, drafts, rows, now)[i]
  {
    var front := rows[..|rows| - 1];
    var rest := DueOf(links, drafts, front, now);
    if i < |rest| {
      p := DueComesFrom(links, drafts, front, now, i);
    } else {
      p := |rows| - 1;
      DueIsShort(links, drafts, front, now);
    }
  }

  lemma {:induction false} DueIsShort(links: Links, drafts: Drafts, rows: seq<int>, now: int)
    ensures |DueOf(links, drafts, rows, now)| <= |rows|
  {
    if rows != [] {
      DueIsShort(links, drafts, rows[..|rows| - 1], now);
    }
  }

  /** A run of the job starts with the first due drafts, as many as the limit, each with its link's
      policy and its own counter as they are now; the mails without a stamp are what it cannot
      know of. */
  lemma BeginsInFields(w: World, rows: seq<int>, limit: nat)
    requires Possible(w, Begin(rows, limit))
    ensures w.batch == None && limit > 0
    ensures var w', due := Apply(w, Begin(rows, limit)), DueOf(w.links, w.drafts, rows, w.clock);
            && w'.batch.Some? && w' == w.(batch := w'.batch)
            && var b := w'.batch.value;
               && b.start == w.clock && b.flying == None && b.unseen == w.open
               && |b.pending| == (if |due| < limit then |due| else limit) && b.pending <= due
               && forall id | id in b.pending ::
                    && id in w.drafts && w.drafts[id].link in w.links && id in b.rows
                    && b.rows[id].every == w.links[w.drafts[id].link].every
                    && b.rows[id].most == w.links[w.drafts[id].link].most
                    && b.rows[id].sent == w.drafts[id].sent
  {
    var due := DueOf(w.links, w.drafts, rows, w.clock);
    DueOfMembers(w.links, w.drafts, rows, w.clock);
    forall id | id in Take(due, limit) ensures id in due {
      TakeKeeps(due, limit);
    }
  }

  /** A mail that goes out is the next of all, to the first in line, at this time and for the row in
      hand; it is without a stamp and the job waits for that. When the server refuses it, nothing
      happens but that the job goes on. */
  lemma SendsInFields(w: World, ok: bool)
    requires Inv(w) && Possible(w, Send(ok))
    ensures var b := w.batch.value;
            var id := b.pending[0];
            && id in b.rows && b.flying == None
            && var m := Auto(w.next, id, w.clock, b.rows[id]);
               Apply(w, Send(ok)) ==
               if ok then w.(next := w.next + 1, mails := w.mails + {m}, open := w.open + {m},
                             batch := Some(b.(pending := b.pending[1..], flying := Some(m), unseen := b.unseen + {m})))
               else w.(batch := Some(b.(pending := b.pending[1..])))
  {
    assert PendingOk(w, w.batch.value, w.batch.value.pending[0]);
  }

  /** A stamp that fails, and a job that ends, writes nothing. */
  lemma FailuresInFields(w: World)
    requires w.batch.Some? && w.batch.value.flying.Some?
    ensures Possible(w, Stamp) && Possible(w, StampFails) && Possible(w, Finish)
    ensures Apply(w, StampFails) == w.(batch := Some(w.batch.value.(flying := None)))
    ensures Apply(w, Finish) == w.(batch := None)
  {
  }

  /** A stamp writes the time and counts, if the draft is still there, and the job goes on. */
  lemma StampsInFields(w: World, m: Mail)
    requires w.batch.Some? && w.batch.value.flying == Some(m) && m.Auto?
    ensures var idle := Some(w.batch.value.(flying := None));
            && Possible(w, Stamp)
            && (m.id !in w.drafts ==> Apply(w, Stamp) == w.(batch := idle))
            && (m.id in w.drafts ==>
                  Apply(w, Stamp) ==
                  w.(batch := idle, open := w.open - {m},
                     drafts := w.drafts[m.id := w.drafts[m.id].(remindedAt := Some(w.clock),
                                                                sent := w.drafts[m.id].sent + 1)]))
  {
  }

  /** A nudge by hand mails at once and may stamp later; its stamp writes the time and does not
      count. */
  lemma NudgesInFields(w: World, id: int, m: Mail)
    requires Possible(w, NudgeMail(id)) && Possible(w, NudgeStamp(m))
    ensures var n, w' := ByHand(w.next, id, w.clock), Apply(w, NudgeMail(id));
            && w'.mails == w.mails + {n} && w'.open == w.open + {n} && w'.next == w.next + 1
            && w'.drafts == w.drafts && w'.links == w.links && w'.clock == w.clock
            && (w.batch == None ==> w'.batch == None)
            && (w.batch != None ==> w'.batch == Some(w.batch.value.(unseen := w.batch.value.unseen + {n})))
    ensures var w' := Apply(w, NudgeStamp(m));
            if m.id !in w.drafts then w' == w
            else w' == w.(open := w.open - {m},
                          drafts := w.drafts[m.id := w.drafts[m.id].(remindedAt := Some(w.clock))])
  {
  }

  /** A save creates a draft without reminders, or moves the time of the last save and nothing
      else; a link is edited or dropped without a look at drafts or mails. */
  lemma EditsInFields(w: World, id: int, link: string, l: Link)
    requires Possible(w, Save(id, link))
    ensures id !in w.drafts ==>
              Apply(w, Save(id, link)) == w.(used := w.used + {id},
                                             drafts := w.drafts[id := Draft(link, w.clock, None, 0)])
    ensures id in w.drafts ==>
              Apply(w, Save(id, link)) == w.(drafts := w.drafts[id := w.drafts[id].(updatedAt := w.clock)])
    ensures Apply(w, Remove(id)) == w.(drafts := w.drafts - {id})
    ensures Apply(w, SetLink(link, l)) == w.(links := w.links[link := l])
    ensures Apply(w, DropLink(link)) == w.(links := w.links - {link})
  {
  }

  /** The clock does not go back; a draft keeps its link and its id; a run looks at three times its
      limit and starts when none is under way; it mails when no stamp is outstanding and somebody
      waits, and stamps, or fails to, when one is. */
  lemma WhatMayHappen(w: World, now: int, id: int, link: string, rows: seq<int>, limit: nat, ok: bool)
    ensures Possible(w, Tick(now)) <==> w.clock <= now
    ensures id in w.drafts ==> (Possible(w, Save(id, link)) <==> w.drafts[id].link == link)
    ensures id !in w.drafts ==> (Possible(w, Save(id, link)) <==> id !in w.used)
    ensures Possible(w, Begin(rows, limit)) <==>
            w.batch == None && limit >= 1 && SelectedRows(w.links, w.drafts, rows, limit + limit + limit)
    ensures Possible(w, Send(ok)) <==> w.batch.Some? && Flying(w) == {} && |w.batch.value.pending| >= 1
    ensures Possible(w, Stamp) <==> Flying(w) != {}
    ensures Possible(w, StampFails) <==> Flying(w) != {}
  {
    if w.batch.Some? && w.batch.value.flying.Some? {
      assert w.batch.value.flying.value in Flying(w);
    }
  }
}
