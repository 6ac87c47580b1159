/** Capped, threaded chat history (adapters/storage/ai_chat.py). Titles and the encryption of
    texts are left out; a person is an (account, user) pair. */
module ChatHistory {
  import opened Common

  datatype Owner = Owner(account: int, user: int)

  /** Legacy rows have no thread. */
  datatype Message = Message(owner: Owner, role: string, text: string, createdAt: int, thread: Option<int>,
    tier: string)

  datatype Thread = Thread(owner: Owner, workspace: string, createdAt: int, updatedAt: int)

  datatype Chat = Chat(messages: map<int, Message>, threads: map<int, Thread>, nextMessage: int, nextThread: int)

  const MAX_ROWS_PER_USER := 100

  // ---- The newest n of a set of ids ----

  function Newer(ids: set<int>, i: int): set<int> {
    set j | j in ids && j > i
  }

  /** ORDER BY id DESC LIMIT n. */
  function Newest(ids: set<int>, n: nat): set<int> {
    set i | i in ids && |Newer(ids, i)| < n
  }

  lemma {:induction false} MaxExists(ids: set<int>) returns (m: int)
    requires ids != {}
    ensures m in ids && forall j | j in ids :: j <= m
    decreases ids
  {
    var i := SomeMember(ids);
    if ids == {i} {
      m := i;
    } else {
      m := MaxExists(ids - {i});
      if i > m {
        m := i;
      }
      forall j | j in ids ensures j <= m {
        if j != i {
          assert j in ids - {i};
        }
      }
    }
  }

  lemma NewestWithoutMax(ids: set<int>, n: nat, m: int)
    requires n > 0 && m in ids && forall j | j in ids :: j <= m
    ensures Newest(ids, n) == Newest(ids - {m}, n - 1) + {m}
    ensures |Newest(ids, n)| == |Newest(ids - {m}, n - 1)| + 1
  {
    var rest := ids - {m};
    assert Newer(ids, m) == {};
    forall i | i in rest ensures |Newer(ids, i)| == |Newer(rest, i)| + 1 {
      assert Newer(ids, i) == Newer(rest, i) + {m};
    }
    forall i ensures i in Newest(ids, n) <==> i in Newest(rest, n - 1) + {m} {
    }
  }

  lemma NewestOfNone(ids: set<int>, n: nat)
    requires n == 0 || ids == {}
    ensures Newest(ids, n) == {}
  {
  }

  /** What is left without its largest member, for both sides of the size. */
  lemma SplitMax(ids: set<int>, n: nat) returns (rest: set<int>)
    requires n > 0 && ids != {}
    ensures |rest| == |ids| - 1 && |Newest(ids, n)| == |Newest(rest, n - 1)| + 1
  {
    var m := MaxExists(ids);
    rest := ids - {m};
    NewestWithoutMax(ids, n, m);
  }

  lemma {:induction false} NewestSize(ids: set<int>, n: nat)
    ensures |Newest(ids, n)| == if |ids| < n then |ids| else n
    decreases n
  {
    if n == 0 || ids == {} {
      NewestOfNone(ids, n);
    } else {
      var rest := SplitMax(ids, n);
      NewestSize(rest, n - 1);
    }
  }

  /** It is the n largest: as many as there are, up to n, and none left out is above one kept. */
  lemma NewestIsTheTop(ids: set<int>, n: nat)
    ensures |Newest(ids, n)| == if |ids| < n then |ids| else n
    ensures forall i, j | i in Newest(ids, n) && j in ids && j !in Newest(ids, n) :: j < i
  {
    NewestSize(ids, n);
    NewestIsAbove(ids, n);
  }

  lemma NewestIsAbove(ids: set<int>, n: nat)
    ensures forall i, j | i in Newest(ids, n) && j in ids && j !in Newest(ids, n) :: j < i
  {
    forall i, j | i in Newest(ids, n) && j in ids && j !in Newest(ids, n) ensures j < i {
      if i <= j {
        assert Newer(ids, j) <= Newer(ids, i);
        SubsetSize(Newer(ids, j), Newer(ids, i));
      }
    }
  }

  // ---- What each operation leaves ----

  function IdsOf(messages: map<int, Message>, owner: Owner): set<int> {
    set i | i in messages && messages[i].owner == owner
  }

  /** The age and volume prunes leave these message rows. */
  function Capped(messages: map<int, Message>, owner: Owner): map<int, Message> {
    var kept := Newest(IdsOf(messages, owner), MAX_ROWS_PER_USER);
    map i | i in messages && (messages[i].owner == owner ==> i in kept) :: messages[i]
  }

  predicate HasMessage(messages: map<int, Message>, t: int) {
    exists i | i in messages :: messages[i].thread == Some(t)
  }

  /** Empty threads go: everyone's, or one person's. */
  function WithoutEmpty(chat: Chat, owner: Option<Owner>): Chat {
    chat.(threads := map t | t in chat.threads &&
                             (HasMessage(chat.messages, t) || !(owner.None? || chat.threads[t].owner == owner.value))
                           :: chat.threads[t])
  }

  function Created(chat: Chat, owner: Owner, workspace: Option<string>, now: int): Chat {
    chat.(threads := chat.threads[chat.nextThread :=
                                    Thread(owner, if workspace.Some? then workspace.value else "", now, now)],
          nextThread := chat.nextThread + 1)
  }

  function Clip(s: string, n: nat): string {
    if |s| <= n then s else s[..n]
  }

  function Question(owner: Owner, t: int, now: int, text: string): Message {
    Message(owner, "user", Clip(text, 1000), now, Some(t), "")
  }

  function Answer(owner: Owner, t: int, now: int, text: string, tier: string): Message {
    Message(owner, "model", Clip(text, 2000), now, Some(t), tier)
  }

  /** Both inserts and the touch of the thread. */
  function Exchanged(chat: Chat, owner: Owner, t: int, now: int, question: string, answer: string, tier: string): Chat {
    chat.(messages := chat.messages[chat.nextMessage := Question(owner, t, now, question)]
                                   [chat.nextMessage + 1 := Answer(owner, t, now, answer, tier)],
          nextMessage := chat.nextMessage + 2,
          threads := if t in chat.threads then chat.threads[t := chat.threads[t].(updatedAt := now)] else chat.threads)
  }

  function Pruned(chat: Chat, owner: Owner): Chat {
    WithoutEmpty(chat.(messages := Capped(chat.messages, owner)), Some(owner))
  }

  /** A save into thread t, made new if there was none of that id. */
  function Saved(chat: Chat, owner: Owner, t: int, now: int, question: string, answer: string, tier: string): Chat {
    Pruned(Exchanged(Started(chat, owner, t, now), owner, t, now, question, answer, tier), owner)
  }

  function Started(chat: Chat, owner: Owner, t: int, now: int): Chat {
    if t in chat.threads then chat else Created(chat, owner, None, now)
  }

  function Deleted(chat: Chat, owner: Owner, t: int): Chat {
    if t in chat.threads && chat.threads[t].owner == owner then
      chat.(threads := chat.threads - {t},
            messages := map i | i in chat.messages
                                && !(chat.messages[i].thread == Some(t) && chat.messages[i].owner == owner)
                              :: chat.messages[i])
    else chat
  }

  function Cleared(chat: Chat, owner: Owner): Chat {
    chat.(messages := map i | i in chat.messages && chat.messages[i].owner != owner :: chat.messages[i],
          threads := map t | t in chat.threads && chat.threads[t].owner != owner :: chat.threads[t])
  }

  function Aged(chat: Chat, cutoff: int): Chat {
    var kept := map i | i in chat.messages && chat.messages[i].createdAt >= cutoff :: chat.messages[i];
    WithoutEmpty(chat.(messages := kept), None)
  }

  // ---- Which thread an exchange lands in ----

  predicate InWorkspace(workspace: Option<string>, w: string) {
    match workspace
    case None => true
    case Some(ws) => if ws == "dash" then w == "dash" || w == "" else w == ws
  }

  predicate Theirs(chat: Chat, owner: Owner, workspace: Option<string>, t: int) {
    t in chat.threads && chat.threads[t].owner == owner && InWorkspace(workspace, chat.threads[t].workspace)
  }

  /** By last activity, then by id. */
  predicate After(chat: Chat, s: int, t: int)
    requires s in chat.threads && t in chat.threads
  {
    chat.threads[s].updatedAt > chat.threads[t].updatedAt
    || (chat.threads[s].updatedAt == chat.threads[t].updatedAt && s > t)
  }

  predicate IsLatest(chat: Chat, owner: Owner, workspace: Option<string>, t: int) {
    Theirs(chat, owner, workspace, t) && forall s | s in chat.threads && Theirs(chat, owner, workspace, s) ::
        !After(chat, s, t)
  }

  /** An existing thread may be used: the one asked for, or else the latest. */
  predicate Usable(chat: Chat, owner: Owner, asked: Option<int>, workspace: Option<string>, t: int) {
    if asked.Some? then t == asked.value && Theirs(chat, owner, workspace, t) else IsLatest(chat, owner, workspace, t)
  }

  /** Ids are handed out in order, and a message in a thread belongs to the thread's owner. */
  ghost predicate Sound(chat: Chat) {
    && (forall i | i in chat.messages :: i < chat.nextMessage)
    && (forall t | t in chat.threads :: t < chat.nextThread)
    && (forall i | i in chat.messages && chat.messages[i].thread.Some? ::
          chat.messages[i].thread.value in chat.threads
          && chat.threads[chat.messages[i].thread.value].owner == chat.messages[i].owner)
  }

  class ChatStore {
    var messages: map<int, Message>
    var threads: map<int, Thread>
    var nextMessage: int
    var nextThread: int

    function Contents(): Chat
      reads this
    {
      Chat(messages, threads, nextMessage, nextThread)
    }

    constructor ()
      ensures Contents() == Chat(map[], map[], 1, 1)
    {
      messages, threads, nextMessage, nextThread := map[], map[], 1, 1;
    }

    method CreateConversation(owner: Owner, workspace: Option<string>, now: int) returns (t: int)
      modifies this
      ensures t == old(nextThread) && Contents() == Created(old(Contents()), owner, workspace, now)
    {
      t := nextThread;
      threads := threads[t := Thread(owner, if workspace.Some? then workspace.value else "", now, now)];
      nextThread := nextThread + 1;
    }

    method LatestConversation(owner: Owner, workspace: Option<string>) returns (latest: Option<int>)
      ensures latest.None? ==> forall t :: !Theirs(Contents(), owner, workspace, t)
      ensures latest.Some? ==> IsLatest(Contents(), owner, workspace, latest.value)
    {
      var todo := threads.Keys;
      latest := None;
      while todo != {}
        invariant todo <= threads.Keys
        invariant latest.None? ==> forall t :: Theirs(Contents(), owner, workspace, t) ==> t in todo
        invariant latest.Some? ==> Theirs(Contents(), owner, workspace, latest.value)
        invariant latest.Some? ==>
                    forall t | t in threads && Theirs(Contents(), owner, workspace, t) ::
                        t in todo || !After(Contents(), t, latest.value)
        decreases todo
      {
        ghost var some := SomeMember(todo);
        var t :| t in todo;
        todo := todo - {t};
        if Theirs(Contents(), owner, workspace, t) && (latest.None? || After(Contents(), t, latest.value)) {
          latest := Some(t);
        }
      }
    }

    method Resolve(owner: Owner, asked: Option<int>, workspace: Option<string>, now: int) returns (t: int)
      requires Sound(Contents())
      modifies this
      ensures if t in old(threads)
              then Usable(old(Contents()), owner, asked, workspace, t) && Contents() == old(Contents())
              else && (forall s :: !Usable(old(Contents()), owner, asked, workspace, s))
                   && t == old(nextThread) && Contents() == Created(old(Contents()), owner, workspace, now)
    {
      if asked.Some? {
        if Theirs(Contents(), owner, workspace, asked.value) {
          return asked.value;
        }
      } else {
        var latest := LatestConversation(owner, workspace);
        if latest.Some? {
          return latest.value;
        }
      }
      t := CreateConversation(owner, workspace, now);
    }

    method PruneFor(owner: Owner)
      modifies this
      ensures Contents() == Pruned(old(Contents()), owner)
    {
      var kept := Newest(IdsOf(messages, owner), MAX_ROWS_PER_USER);
      messages := map i | i in messages && (messages[i].owner == owner ==> i in kept) :: messages[i];
      threads := map t | t in threads && (HasMessage(messages, t) || threads[t].owner != owner) :: threads[t];
    }

    method Save(owner: Owner, question: string, answer: string, asked: Option<int>, tier: string, now: int)
      returns (t: int)
      requires Sound(Contents())
      modifies this
      ensures t in old(threads) ==> Usable(old(Contents()), owner, asked, None, t)
      ensures t !in old(threads) ==> t == old(nextThread) && forall s :: !Usable(old(Contents()), owner, asked, None, s)
      ensures Contents() == Saved(old(Contents()), owner, t, now, question, answer, tier)
    {
      t := Resolve(owner, asked, None, now);
      messages := messages[nextMessage := Question(owner, t, now, question)];
      messages := messages[nextMessage + 1 := Answer(owner, t, now, answer, tier)];
      nextMessage := nextMessage + 2;
      if t in threads {
        threads := threads[t := threads[t].(updatedAt := now)];
      }
      PruneFor(owner);
    }

    method DeleteConversation(owner: Owner, t: int) returns (deleted: bool)
      modifies this
      ensures deleted == (t in old(threads) && old(threads)[t].owner == owner)
      ensures Contents() == Deleted(old(Contents()), owner, t)
    {
      deleted := t in threads && threads[t].owner == owner;
      if deleted {
        threads := threads - {t};
        messages := map i | i in messages && !(messages[i].thread == Some(t) && messages[i].owner == owner) ::
            messages[i];
      }
    }

    method ClearChatHistory(owner: Owner)
      modifies this
      ensures Contents() == Cleared(old(Contents()), owner)
    {
      messages := map i | i in messages && messages[i].owner != owner :: messages[i];
      threads := map t | t in threads && threads[t].owner != owner :: threads[t];
    }

    method PruneByAge(cutoff: int) returns (gone: nat)
      modifies this
      ensures Contents() == Aged(old(Contents()), cutoff)
      ensures gone == |set i | i in old(messages) && old(messages)[i].createdAt < cutoff|
    {
      gone := |set i | i in messages && messages[i].createdAt < cutoff|;
      messages := map i | i in messages && messages[i].createdAt >= cutoff :: messages[i];
      threads := map t | t in threads && HasMessage(messages, t) :: threads[t];
    }
  }

  // ---- What a save gives ----

  /** Where a save may land: a thread of theirs, or the next new one. */
  ghost predicate CanLand(chat: Chat, owner: Owner, t: int) {
    if t in chat.threads then chat.threads[t].owner == owner else t == chat.nextThread
  }

  lemma ExchangeIsSound(chat: Chat, owner: Owner, t: int, now: int, question: string, answer: string, tier: string)
    requires Sound(chat) && CanLand(chat, owner, t)
    ensures var mid := Exchanged(Started(chat, owner, t, now), owner, t, now, question, answer, tier);
            && Sound(mid) && t in mid.threads && mid.threads[t].owner == owner
            && IdsOf(mid.messages, owner) == IdsOf(chat.messages, owner) + {chat.nextMessage, chat.nextMessage + 1}
            && (forall s | s in mid.threads && s != t :: s in chat.threads && mid.threads[s] == chat.threads[s])
            && (forall s | s in chat.threads :: s in mid.threads && mid.threads[s].owner == chat.threads[s].owner)
  {
  }

  lemma TwoNewestStay(ids: set<int>, n: int)
    requires forall i | i in ids :: i < n
    ensures n in Newest(ids + {n, n + 1}, MAX_ROWS_PER_USER) && n + 1 in Newest(ids + {n, n + 1}, MAX_ROWS_PER_USER)
  {
    assert Newer(ids + {n, n + 1}, n + 1) == {};
    assert Newer(ids + {n, n + 1}, n) == {n + 1};
  }

  /** A prune keeps the newest rows of one person, drops their empty threads, and touches
      nobody else. */
  lemma PruneFacts(chat: Chat, owner: Owner)
    requires Sound(chat)
    ensures var c := Pruned(chat, owner);
            && Sound(c)
            && IdsOf(c.messages, owner) == Newest(IdsOf(chat.messages, owner), MAX_ROWS_PER_USER)
            && (forall i | i in c.messages :: i in chat.messages && c.messages[i] == chat.messages[i])
            && (forall i | i in chat.messages && chat.messages[i].owner != owner :: i in c.messages)
            && (forall t | t in c.threads :: t in chat.threads && c.threads[t] == chat.threads[t])
            && (forall t | t in chat.threads && chat.threads[t].owner != owner :: t in c.threads)
            && (forall t | t in chat.threads && chat.threads[t].owner == owner ::
                t in c.threads <==> HasMessage(c.messages, t))
  {
    var c := Pruned(chat, owner);
    forall i | i in c.messages && c.messages[i].thread.Some? ensures c.messages[i].thread.value in c.threads {
      assert HasMessage(c.messages, c.messages[i].thread.value);
    }
  }

  lemma ExchangeIds(chat: Chat, owner: Owner, t: int, now: int, question: string, answer: string, tier: string)
    ensures IdsOf(Exchanged(chat, owner, t, now, question, answer, tier).messages, owner) ==
            IdsOf(chat.messages, owner) + {chat.nextMessage, chat.nextMessage + 1}
  {
  }

  lemma PruneIds(chat: Chat, owner: Owner)
    ensures IdsOf(Pruned(chat, owner).messages, owner) == Newest(IdsOf(chat.messages, owner), MAX_ROWS_PER_USER)
  {
  }

  lemma SavedIds(chat: Chat, owner: Owner, t: int, now: int, question: string, answer: string, tier: string)
    ensures IdsOf(Saved(chat, owner, t, now, question, answer, tier).messages, owner) ==
            Newest(IdsOf(chat.messages, owner) + {chat.nextMessage, chat.nextMessage + 1}, MAX_ROWS_PER_USER)
  {
    var start := Started(chat, owner, t, now);
    ExchangeIds(start, owner, t, now, question, answer, tier);
    PruneIds(Exchanged(start, owner, t, now, question, answer, tier), owner);
  }

  lemma TopOf(kept: set<int>, ids: set<int>, n: int)
    requires kept == Newest(ids + {n, n + 1}, MAX_ROWS_PER_USER) && forall i | i in ids :: i < n
    ensures |kept| <= MAX_ROWS_PER_USER && n in kept && n + 1 in kept
  {
    TwoNewestStay(ids, n);
    NewestSize(ids + {n, n + 1}, MAX_ROWS_PER_USER);
  }

  lemma SoundIds(chat: Chat, owner: Owner)
    requires Sound(chat)
    ensures forall i | i in IdsOf(chat.messages, owner) :: i < chat.nextMessage
  {
  }

  lemma SaveIds(chat: Chat, owner: Owner, t: int, now: int, question: string, answer: string, tier: string)
    requires Sound(chat)
    ensures var ids := IdsOf(Saved(chat, owner, t, now, question, answer, tier).messages, owner);
            |ids| <= MAX_ROWS_PER_USER && chat.nextMessage in ids && chat.nextMessage + 1 in ids
  {
    var had, n := IdsOf(chat.messages, owner), chat.nextMessage;
    SoundIds(chat, owner);
    SavedIds(chat, owner, t, now, question, answer, tier);
    var kept := IdsOf(Saved(chat, owner, t, now, question, answer, tier).messages, owner);
    TopOf(kept, had, n);
  }

  /** After a save the person's rows are the newest 100 of those they had and the two new
      ones; the new ones are among them and the others are as they were. */
  lemma SaveKeepsTheNewest(chat: Chat, owner: Owner, t: int, now: int, question: string, answer: string, tier: string)
    requires Sound(chat) && CanLand(chat, owner, t)
    ensures var c := Saved(chat, owner, t, now, question, answer, tier);
            var n := chat.nextMessage;
            && IdsOf(c.messages, owner) == Newest(IdsOf(chat.messages, owner) + {n, n + 1}, MAX_ROWS_PER_USER)
            && |IdsOf(c.messages, owner)| <= MAX_ROWS_PER_USER
            && n in c.messages && c.messages[n] == Question(owner, t, now, question)
            && n + 1 in c.messages && c.messages[n + 1] == Answer(owner, t, now, answer, tier)
            && (forall i | i in c.messages && i < n :: i in chat.messages && c.messages[i] == chat.messages[i])
  {
    SavedIds(chat, owner, t, now, question, answer, tier);
    SaveIds(chat, owner, t, now, question, answer, tier);
    var ids := IdsOf(Saved(chat, owner, t, now, question, answer, tier).messages, owner);
    assert chat.nextMessage in ids && chat.nextMessage + 1 in ids;
  }

  /** The thread a save returns is there and theirs, none of their threads is empty, and every
      message's thread exists. */
  lemma SaveKeepsTheThread(chat: Chat, owner: Owner, t: int, now: int, question: string, answer: string, tier: string)
    requires Sound(chat) && CanLand(chat, owner, t)
    ensures var c := Saved(chat, owner, t, now, question, answer, tier);
            && Sound(c)
            && t in c.threads && c.threads[t].owner == owner && c.threads[t].updatedAt == now
            && (forall s | s in c.threads && c.threads[s].owner == owner :: HasMessage(c.messages, s))
  {
    var mid := Exchanged(Started(chat, owner, t, now), owner, t, now, question, answer, tier);
    ExchangeIsSound(chat, owner, t, now, question, answer, tier);
    PruneFacts(mid, owner);
    SaveKeepsTheNewest(chat, owner, t, now, question, answer, tier);
    assert HasMessage(Pruned(mid, owner).messages, t);
  }

  /** Rows and threads of everyone else are exactly what they were. */
  ghost predicate OthersKept(chat: Chat, c: Chat, owner: Owner) {
    && (forall i | i in chat.messages && chat.messages[i].owner != owner ::
        i in c.messages && c.messages[i] == chat.messages[i])
    && (forall i | i in c.messages && c.messages[i].owner != owner ::
        i in chat.messages && c.messages[i] == chat.messages[i])
    && (forall t | t in chat.threads && chat.threads[t].owner != owner ::
        t in c.threads && c.threads[t] == chat.threads[t])
    && (forall t | t in c.threads && c.threads[t].owner != owner ::
        t in chat.threads && c.threads[t] == chat.threads[t])
  }

  lemma SaveKeepsOthers(chat: Chat, owner: Owner, t: int, now: int, question: string, answer: string, tier: string)
    requires Sound(chat) && CanLand(chat, owner, t)
    ensures OthersKept(chat, Saved(chat, owner, t, now, question, answer, tier), owner)
  {
    var mid := Exchanged(Started(chat, owner, t, now), owner, t, now, question, answer, tier);
    ExchangeIsSound(chat, owner, t, now, question, answer, tier);
    PruneFacts(mid, owner);
  }

  // ---- Every operation ----

  datatype Step =
    | Open(owner: Owner, workspace: Option<string>, now: int)
    | SaveIn(owner: Owner, t: int, now: int, question: string, answer: string, tier: string)
    | Delete(owner: Owner, t: int)
    | Clear(owner: Owner)
    | Sweep(cutoff: int)

  function Apply(chat: Chat, s: Step): Chat {
    match s
    case Open(owner, workspace, now) => Created(chat, owner, workspace, now)
    case SaveIn(owner, t, now, question, answer, tier) => Saved(chat, owner, t, now, question, answer, tier)
    case Delete(owner, t) => Deleted(chat, owner, t)
    case Clear(owner) => Cleared(chat, owner)
    case Sweep(cutoff) => Aged(chat, cutoff)
  }

  ghost predicate Possible(chat: Chat, s: Step) {
    s.SaveIn? ==> CanLand(chat, s.owner, s.t)
  }

  ghost predicate PossibleRun(chat: Chat, steps: seq<Step>)
    decreases |steps|
  {
    steps == [] || (Possible(chat, steps[0]) && PossibleRun(Apply(chat, steps[0]), steps[1..]))
  }

  function Run(chat: Chat, steps: seq<Step>): Chat
    decreases |steps|
  {
    if steps == [] then chat else Run(Apply(chat, steps[0]), steps[1..])
  }

  ghost predicate Bounded(chat: Chat) {
    forall owner: Owner :: |IdsOf(chat.messages, owner)| <= MAX_ROWS_PER_USER
  }

  lemma SweepIsSound(chat: Chat, cutoff: int)
    requires Sound(chat)
    ensures Sound(Aged(chat, cutoff))
  {
    var c := Aged(chat, cutoff);
    forall i | i in c.messages && c.messages[i].thread.Some? ensures c.messages[i].thread.value in c.threads {
      assert HasMessage(c.messages, c.messages[i].thread.value);
    }
  }

  lemma StepIsSound(chat: Chat, s: Step)
    requires Sound(chat) && Possible(chat, s)
    ensures Sound(Apply(chat, s))
  {
    match s
    case Open(_, _, _) =>
    case SaveIn(owner, t, now, question, answer, tier) =>
      SaveKeepsTheThread(chat, owner, t, now, question, answer, tier);
    case Delete(_, _) =>
    case Clear(_) =>
    case Sweep(cutoff) => SweepIsSound(chat, cutoff);
  }

  lemma OthersKeepTheirIds(chat: Chat, c: Chat, owner: Owner, other: Owner)
    requires OthersKept(chat, c, owner) && other != owner
    ensures IdsOf(c.messages, other) == IdsOf(chat.messages, other)
  {
    forall i ensures i in IdsOf(c.messages, other) <==> i in IdsOf(chat.messages, other) {
    }
  }

  /** Nothing but a save adds a row. */
  lemma OnlySavesAdd(chat: Chat, s: Step, owner: Owner)
    requires !s.SaveIn?
    ensures IdsOf(Apply(chat, s).messages, owner) <= IdsOf(chat.messages, owner)
  {
  }

  lemma StepIsBounded(chat: Chat, s: Step, owner: Owner)
    requires Sound(chat) && Possible(chat, s) && |IdsOf(chat.messages, owner)| <= MAX_ROWS_PER_USER
    ensures |IdsOf(Apply(chat, s).messages, owner)| <= MAX_ROWS_PER_USER
  {
    if !s.SaveIn? {
      OnlySavesAdd(chat, s, owner);
      SubsetSize(IdsOf(Apply(chat, s).messages, owner), IdsOf(chat.messages, owner));
    } else if owner == s.owner {
      SaveIds(chat, s.owner, s.t, s.now, s.question, s.answer, s.tier);
    } else {
      SaveKeepsOthers(chat, s.owner, s.t, s.now, s.question, s.answer, s.tier);
      OthersKeepTheirIds(chat, Apply(chat, s), s.owner, owner);
    }
  }

  /** Over every run of whole operations, every message's thread exists and is its owner's,
      and nobody ever has more than 100 rows. */
  lemma {:induction false} RunIsSound(chat: Chat, steps: seq<Step>)
    requires Sound(chat) && Bounded(chat) && PossibleRun(chat, steps)
    ensures Sound(Run(chat, steps)) && Bounded(Run(chat, steps))
    decreases |steps|
  {
    if steps != [] {
      StepIsSound(chat, steps[0]);
      forall owner: Owner ensures |IdsOf(Apply(chat, steps[0]).messages, owner)| <= MAX_ROWS_PER_USER {
        StepIsBounded(chat, steps[0], owner);
      }
      RunIsSound(Apply(chat, steps[0]), steps[1..]);
    }
  }

  // ---- One statement at a time ----

  /** The statements the operations are made of. Each commits on its own, so statements of
      different requests may alternate. */
  datatype Statement =
    | InsertThread(owner: Owner, workspace: Option<string>, now: int)
    | InsertMessage(owner: Owner, t: int, m: Message)
    | Touch(t: int, now: int)
    | CapRows(owner: Owner)
    | DropEmpty(whose: Option<Owner>)
    | DeleteThread(owner: Owner, t: int)
    | DeleteMessagesOf(owner: Owner, t: int)
    | ClearMessages(owner: Owner)
    | ClearThreads(owner: Owner)
    | DeleteOld(cutoff: int)

  function Execute(chat: Chat, s: Statement): Chat {
    match s
    case InsertThread(owner, workspace, now) => Created(chat, owner, workspace, now)
    case InsertMessage(owner, t, m) =>
      chat.(messages := chat.messages[chat.nextMessage := m.(owner := owner, thread := Some(t))],
            nextMessage := chat.nextMessage + 1)
    case Touch(t, now) =>
      if t in chat.threads then chat.(threads := chat.threads[t := chat.threads[t].(updatedAt := now)]) else chat
    case CapRows(owner) => chat.(messages := Capped(chat.messages, owner))
    case DropEmpty(owner) => WithoutEmpty(chat, owner)
    case DeleteThread(owner, t) =>
      if t in chat.threads && chat.threads[t].owner == owner then chat.(threads := chat.threads - {t}) else chat
    case DeleteMessagesOf(owner, t) =>
      chat.(messages := map i | i in chat.messages
                                && !(chat.messages[i].thread == Some(t) && chat.messages[i].owner == owner)
                          :: chat.messages[i])
    case ClearMessages(owner) =>
      chat.(messages := map i | i in chat.messages && chat.messages[i].owner != owner :: chat.messages[i])
    case ClearThreads(owner) =>
      chat.(threads := map t | t in chat.threads && chat.threads[t].owner != owner :: chat.threads[t])
    case DeleteOld(cutoff) =>
      chat.(messages := map i | i in chat.messages && chat.messages[i].createdAt >= cutoff :: chat.messages[i])
  }

  function ExecuteAll(chat: Chat, ss: seq<Statement>): Chat {
    if ss == [] then chat else Execute(ExecuteAll(chat, ss[..|ss| - 1]), ss[|ss| - 1])
  }

  /** The statement writes into a thread that is not there or not theirs, or takes away a thread
      that still has a message. */
  ghost predicate Orphans(chat: Chat, s: Statement) {
    match s
    case InsertMessage(owner, t, _) => !(t in chat.threads && chat.threads[t].owner == owner)
    case DeleteThread(owner, t) => t in chat.threads && chat.threads[t].owner == owner && HasMessage(chat.messages, t)
    case ClearThreads(owner) =>
      exists t | t in chat.threads :: chat.threads[t].owner == owner && HasMessage(chat.messages, t)
    case _ => false
  }

  /** A statement keeps every message in a thread of its owner exactly when it is not one of
      those. */
  lemma StatementIsSoundIff(chat: Chat, s: Statement)
    requires Sound(chat)
    ensures Sound(Execute(chat, s)) <==> !Orphans(chat, s)
  {
    var c := Execute(chat, s);
    match s
    case InsertMessage(owner, t, m) =>
      assert c.messages[chat.nextMessage] == m.(owner := owner, thread := Some(t));
    case DropEmpty(owner) =>
      forall i | i in c.messages && c.messages[i].thread.Some? ensures c.messages[i].thread.value in c.threads {
        assert HasMessage(chat.messages, c.messages[i].thread.value);
      }
    case DeleteThread(owner, t) =>
      if Orphans(chat, s) {
        var i :| i in chat.messages && chat.messages[i].thread == Some(t);
        assert i in c.messages && t !in c.threads;
      }
      forall i | i in c.messages && c.messages[i].thread == Some(t) ensures HasMessage(chat.messages, t) {
        assert chat.messages[i].thread == Some(t);
      }
    case ClearThreads(owner) =>
      ClearedThreadsIff(chat, owner);
    case _ =>
  }

  lemma ClearedThreadsIff(chat: Chat, owner: Owner)
    requires Sound(chat)
    ensures Sound(Execute(chat, ClearThreads(owner))) <==> !Orphans(chat, ClearThreads(owner))
  {
    var c := Execute(chat, ClearThreads(owner));
    if Orphans(chat, ClearThreads(owner)) {
      var t :| t in chat.threads && chat.threads[t].owner == owner && HasMessage(chat.messages, t);
      var i :| i in chat.messages && chat.messages[i].thread == Some(t);
      assert i in c.messages && t !in c.threads;
    } else {
      forall i | i in c.messages && c.messages[i].thread.Some?
        ensures c.messages[i].thread.value in c.threads &&
            c.threads[c.messages[i].thread.value].owner == c.messages[i].owner
      {
        assert HasMessage(chat.messages, c.messages[i].thread.value);
      }
    }
  }

  /** Over any interleaving of statements, no message is ever in a missing or foreign thread
      exactly when no statement of the run is one of those. */
  lemma {:induction false} RunOfStatementsIsSoundIff(chat: Chat, ss: seq<Statement>)
    requires Sound(chat)
    ensures (forall n | 0 <= n <= |ss| :: Sound(ExecuteAll(chat, ss[..n]))) <==>
            (forall n | 0 <= n < |ss| :: !Orphans(ExecuteAll(chat, ss[..n]), ss[n]))
  {
    if forall n | 0 <= n < |ss| :: !Orphans(ExecuteAll(chat, ss[..n]), ss[n]) {
      forall n: nat | n <= |ss| ensures Sound(ExecuteAll(chat, ss[..n])) {
        SoundUpTo(chat, ss, n);
      }
    }
    if forall n | 0 <= n <= |ss| :: Sound(ExecuteAll(chat, ss[..n])) {
      forall n: nat | n < |ss| ensures !Orphans(ExecuteAll(chat, ss[..n]), ss[n]) {
        ExecuteNext(chat, ss, n);
        var next := n + 1;
        assert Sound(ExecuteAll(chat, ss[..n])) && Sound(ExecuteAll(chat, ss[..next]));
        StatementIsSoundIff(ExecuteAll(chat, ss[..n]), ss[n]);
      }
    }
  }

  lemma ExecuteNext(chat: Chat, ss: seq<Statement>, n: nat)
    requires n < |ss|
    ensures ExecuteAll(chat, ss[..n + 1]) == Execute(ExecuteAll(chat, ss[..n]), ss[n])
  {
    assert ss[..n + 1][..n] == ss[..n];
  }

  lemma {:induction false} SoundUpTo(chat: Chat, ss: seq<Statement>, n: nat)
    requires Sound(chat) && n <= |ss|
    requires forall m | 0 <= m < |ss| :: !Orphans(ExecuteAll(chat, ss[..m]), ss[m])
    ensures Sound(ExecuteAll(chat, ss[..n]))
  {
    if n > 0 {
      SoundUpTo(chat, ss, n - 1);
      ExecuteNext(chat, ss, n - 1);
      StatementIsSoundIff(ExecuteAll(chat, ss[..n - 1]), ss[n - 1]);
    }
  }

  // ---- Once all requests have finished ----

  /** The rows after the first n statements. */
  function At(chat: Chat, ss: seq<Statement>, n: nat): Chat
    requires n <= |ss|
  {
    ExecuteAll(chat, ss[..n])
  }

  predicate FollowedBy(ss: seq<Statement>, n: nat, s: Statement) {
    exists m | n < m < |ss| :: ss[m] == s
  }

  predicate PrecededBy(ss: seq<Statement>, n: nat, s: Statement)
    requires n <= |ss|
  {
    exists m | 0 <= m < n :: ss[m] == s
  }

  /** The statements of finished requests, in any interleaving: a thread is written to after it
      was opened, a delete that took a thread went on to its messages, and a clear took the
      messages before the threads. */
  ghost predicate Finished(chat: Chat, ss: seq<Statement>) {
    && (forall n: nat | n < |ss| && ss[n].InsertMessage? :: ss[n].t < At(chat, ss, n).nextThread)
    && (forall n: nat | n < |ss| && ss[n].DeleteThread? && Takes(At(chat, ss, n), ss[n].owner, ss[n].t) ::
          FollowedBy(ss, n, DeleteMessagesOf(ss[n].owner, ss[n].t)))
    && (forall n: nat | n < |ss| && ss[n].ClearThreads? :: PrecededBy(ss, n, ClearMessages(ss[n].owner)))
  }

  predicate Takes(chat: Chat, owner: Owner, t: int) {
    t in chat.threads && chat.threads[t].owner == owner
  }

  /** The message is in a thread of its owner, or in none. */
  predicate InPlace(chat: Chat, i: int)
    requires i in chat.messages
  {
    chat.messages[i].thread.Some? ==> Takes(chat, chat.messages[i].owner, chat.messages[i].thread.value)
  }

  ghost predicate Numbered(chat: Chat) {
    && (forall i | i in chat.messages :: i < chat.nextMessage)
    && (forall t | t in chat.threads :: t < chat.nextThread)
    && (forall i | i in chat.messages && chat.messages[i].thread.Some? ::
          chat.messages[i].thread.value < chat.nextThread)
  }

  lemma NumberedNext(chat: Chat, s: Statement)
    requires Numbered(chat) && (s.InsertMessage? ==> s.t < chat.nextThread)
    ensures Numbered(Execute(chat, s))
  {
  }

  lemma {:induction false} NumberedAt(chat: Chat, ss: seq<Statement>, n: nat)
    requires Sound(chat) && Finished(chat, ss) && n <= |ss|
    ensures Numbered(At(chat, ss, n))
  {
    if n > 0 {
      NumberedAt(chat, ss, n - 1);
      ExecuteNext(chat, ss, n - 1);
      NumberedNext(At(chat, ss, n - 1), ss[n - 1]);
    }
  }

  /** The statement takes the thread of this message. */
  predicate TakesThreadOf(s: Statement, m: Message) {
    || (s.DeleteThread? && s.owner == m.owner && m.thread == Some(s.t))
    || (s.ClearThreads? && s.owner == m.owner && m.thread.Some?)
  }

  /** A message that survives a statement is as it was, and in place exactly if it was and the
      statement did not take its thread. A message that is gone does not come back. */
  lemma PlaceNext(chat: Chat, s: Statement, i: int)
    requires Numbered(chat) && i < chat.nextMessage && i in Execute(chat, s).messages
    ensures i in chat.messages && Execute(chat, s).messages[i] == chat.messages[i]
    ensures InPlace(Execute(chat, s), i) <==> InPlace(chat, i) && !TakesThreadOf(s, chat.messages[i])
    ensures !(s.DeleteMessagesOf? && s.owner == chat.messages[i].owner && chat.messages[i].thread == Some(s.t))
    ensures !(s.ClearMessages? && s.owner == chat.messages[i].owner)
  {
    if s.DropEmpty? && i in chat.messages && chat.messages[i].thread.Some? {
      assert HasMessage(chat.messages, chat.messages[i].thread.value);
    }
  }

  lemma {:induction false} IdsGrow(chat: Chat, ss: seq<Statement>, a: nat, b: nat)
    requires a <= b <= |ss|
    ensures At(chat, ss, a).nextMessage <= At(chat, ss, b).nextMessage
    decreases b
  {
    if a < b {
      IdsGrow(chat, ss, a, b - 1);
      ExecuteNext(chat, ss, b - 1);
    }
  }

  lemma {:induction false} WasThere(chat: Chat, ss: seq<Statement>, a: nat, b: nat, i: int)
    requires Sound(chat) && Finished(chat, ss) && a <= b <= |ss|
    requires i < At(chat, ss, a).nextMessage && i in At(chat, ss, b).messages
    ensures i in At(chat, ss, a).messages && At(chat, ss, a).messages[i] == At(chat, ss, b).messages[i]
    decreases b
  {
    if a < b {
      IdsGrow(chat, ss, a, b - 1);
      NumberedAt(chat, ss, b - 1);
      ExecuteNext(chat, ss, b - 1);
      PlaceNext(At(chat, ss, b - 1), ss[b - 1], i);
      WasThere(chat, ss, a, b - 1, i);
    }
  }

  /** No later statement deleted the messages of its thread, or of its owner. */
  lemma NotDeleted(chat: Chat, ss: seq<Statement>, a: nat, i: int, k: nat)
    requires Sound(chat) && Finished(chat, ss) && a <= k < |ss|
    requires i < At(chat, ss, a).nextMessage && i in At(chat, ss, |ss|).messages
    ensures var m := At(chat, ss, |ss|).messages[i];
            && ss[k] != ClearMessages(m.owner)
            && (m.thread.Some? ==> ss[k] != DeleteMessagesOf(m.owner, m.thread.value))
  {
    IdsGrow(chat, ss, a, k);
    IdsGrow(chat, ss, k, k + 1);
    WasThere(chat, ss, k + 1, |ss|, i);
    NumberedAt(chat, ss, k);
    ExecuteNext(chat, ss, k);
    PlaceNext(At(chat, ss, k), ss[k], i);
  }

  /** Statement k does not delete the thread of a message that is there in the end. */
  lemma NoDeleteTakesIt(chat: Chat, ss: seq<Statement>, a: nat, i: int, k: nat)
    requires Sound(chat) && Finished(chat, ss) && a <= k < |ss|
    requires i < At(chat, ss, a).nextMessage && i in At(chat, ss, |ss|).messages
    requires i in At(chat, ss, k).messages && At(chat, ss, k).messages[i] == At(chat, ss, |ss|).messages[i]
    requires InPlace(At(chat, ss, k), i) && ss[k].DeleteThread?
    ensures !TakesThreadOf(ss[k], At(chat, ss, k).messages[i])
  {
    if TakesThreadOf(ss[k], At(chat, ss, k).messages[i]) {
      var later :| k < later < |ss| && ss[later] == DeleteMessagesOf(ss[k].owner, ss[k].t);
      NotDeleted(chat, ss, a, i, later);
      assert false;
    }
  }

  predicate ClearsThreadOf(s: Statement, m: Message) {
    s == ClearThreads(m.owner) && m.thread.Some?
  }

  /** After n statements the message is there and in place. */
  predicate Kept(chat: Chat, ss: seq<Statement>, n: nat, i: int)
    requires n <= |ss|
  {
    i in At(chat, ss, n).messages && InPlace(At(chat, ss, n), i)
  }

  /** A clear of its owner comes between. */
  predicate ClearedIn(ss: seq<Statement>, a: nat, b: nat, m: Message)
    requires b <= |ss|
  {
    exists k | a <= k < b :: ClearsThreadOf(ss[k], m)
  }

  lemma ClearedInNext(ss: seq<Statement>, a: nat, b: nat, m: Message)
    requires a < b <= |ss|
    ensures ClearedIn(ss, a, b, m) <==> ClearedIn(ss, a, b - 1, m) || ClearsThreadOf(ss[b - 1], m)
  {
  }

  lemma PlaceStep(chat: Chat, ss: seq<Statement>, a: nat, i: int, k: nat)
    requires Sound(chat) && Finished(chat, ss) && a <= k < |ss|
    requires i < At(chat, ss, a).nextMessage && i in At(chat, ss, |ss|).messages
    ensures Kept(chat, ss, k + 1, i) <==>
            Kept(chat, ss, k, i) && !ClearsThreadOf(ss[k], At(chat, ss, |ss|).messages[i])
  {
    IdsGrow(chat, ss, a, k);
    IdsGrow(chat, ss, k, k + 1);
    WasThere(chat, ss, k, |ss|, i);
    WasThere(chat, ss, k + 1, |ss|, i);
    NumberedAt(chat, ss, k);
    ExecuteNext(chat, ss, k);
    PlaceNext(At(chat, ss, k), ss[k], i);
    if InPlace(At(chat, ss, k), i) && ss[k].DeleteThread? {
      NoDeleteTakesIt(chat, ss, a, i, k);
    }
  }

  /** From its insert on, a message that is there in the end loses its thread only to a clear. */
  lemma {:induction false} LosesPlaceToClears(chat: Chat, ss: seq<Statement>, a: nat, b: nat, i: int)
    requires Sound(chat) && Finished(chat, ss) && a <= b <= |ss|
    requires i < At(chat, ss, a).nextMessage && i in At(chat, ss, |ss|).messages
    ensures Kept(chat, ss, b, i) <==> Kept(chat, ss, a, i) && !ClearedIn(ss, a, b, At(chat, ss, |ss|).messages[i])
    decreases b
  {
    if a < b {
      LosesPlaceToClears(chat, ss, a, b - 1, i);
      PlaceStep(chat, ss, a, i, b - 1);
      ClearedInNext(ss, a, b, At(chat, ss, |ss|).messages[i]);
    }
  }

  /** The insert came when its thread was gone or not theirs, or a clear of its owner took the
      thread afterwards: it landed between the two statements of the clear. */
  predicate Strands(chat: Chat, ss: seq<Statement>, n: nat)
    requires n < |ss|
  {
    ss[n].InsertMessage? &&
    (!Takes(At(chat, ss, n), ss[n].owner, ss[n].t) || FollowedBy(ss, n, ClearThreads(ss[n].owner)))
  }

  /** The message that the n-th statement inserts. */
  function Inserted(chat: Chat, ss: seq<Statement>, n: nat): int
    requires n < |ss|
  {
    At(chat, ss, n).nextMessage
  }

  lemma {:induction false} WhereFrom(chat: Chat, ss: seq<Statement>, n: nat, i: int) returns (k: nat)
    requires n <= |ss| && i in At(chat, ss, n).messages && i !in chat.messages
    ensures k < n && ss[k].InsertMessage? && i == Inserted(chat, ss, k)
  {
    assert n > 0;
    ExecuteNext(chat, ss, n - 1);
    if i in At(chat, ss, n - 1).messages {
      k := WhereFrom(chat, ss, n - 1, i);
    } else {
      k := n - 1;
    }
  }

  lemma InsertedIsInPlaceIff(chat: Chat, ss: seq<Statement>, n: nat)
    requires Sound(chat) && Finished(chat, ss) && n < |ss| && ss[n].InsertMessage?
    requires Inserted(chat, ss, n) in At(chat, ss, |ss|).messages
    ensures InPlace(At(chat, ss, |ss|), Inserted(chat, ss, n)) <==> !Strands(chat, ss, n)
  {
    var i := Inserted(chat, ss, n);
    ExecuteNext(chat, ss, n);
    assert i < At(chat, ss, n + 1).nextMessage;
    WasThere(chat, ss, n + 1, |ss|, i);
    LosesPlaceToClears(chat, ss, n + 1, |ss|, i);
  }

  lemma OldMessageIsInPlace(chat: Chat, ss: seq<Statement>, i: int)
    requires Sound(chat) && Finished(chat, ss) && i in chat.messages && i in At(chat, ss, |ss|).messages
    ensures InPlace(At(chat, ss, |ss|), i)
  {
    assert At(chat, ss, 0) == chat;
    WasThere(chat, ss, 0, |ss|, i);
    LosesPlaceToClears(chat, ss, 0, |ss|, i);
    forall k: nat | k < |ss| && ss[k] == ClearThreads(chat.messages[i].owner) ensures false {
      var m :| 0 <= m < k && ss[m] == ClearMessages(ss[k].owner);
      NotDeleted(chat, ss, 0, i, m);
    }
  }

  /** Once all requests have finished, every message is in a thread of its owner exactly when
      every message that an insert stranded has been deleted since. */
  lemma EndsSoundIff(chat: Chat, ss: seq<Statement>)
    requires Sound(chat) && Finished(chat, ss)
    ensures Sound(At(chat, ss, |ss|)) <==>
            forall n: nat | n < |ss| && Strands(chat, ss, n) :: Inserted(chat, ss, n) !in At(chat, ss, |ss|).messages
  {
    var end := At(chat, ss, |ss|);
    NumberedAt(chat, ss, |ss|);
    if forall n: nat | n < |ss| && Strands(chat, ss, n) :: Inserted(chat, ss, n) !in end.messages {
      forall i | i in end.messages ensures InPlace(end, i) {
        if i in chat.messages {
          OldMessageIsInPlace(chat, ss, i);
        } else {
          var n := WhereFrom(chat, ss, |ss|, i);
          InsertedIsInPlaceIff(chat, ss, n);
        }
      }
    }
    if Sound(end) {
      forall n: nat | n < |ss| && Strands(chat, ss, n) ensures Inserted(chat, ss, n) !in end.messages {
        if Inserted(chat, ss, n) in end.messages {
          InsertedIsInPlaceIff(chat, ss, n);
          assert InPlace(end, Inserted(chat, ss, n));
          assert false;
        }
      }
    }
  }

  /** A save with nothing in between is its statements. */
  lemma SaveIsItsStatements(chat: Chat, owner: Owner, t: int, now: int, question: string, answer: string, tier: string)
    requires Sound(chat) && CanLand(chat, owner, t)
    ensures var opening := if t in chat.threads then chat else Execute(chat, InsertThread(owner, None, now));
            var q := Execute(opening, InsertMessage(owner, t, Question(owner, t, now, question)));
            var a := Execute(q, InsertMessage(owner, t, Answer(owner, t, now, answer, tier)));
            var capped := Execute(Execute(a, Touch(t, now)), CapRows(owner));
            Saved(chat, owner, t, now, question, answer, tier) == Execute(capped, DropEmpty(Some(owner)))
  {
  }

  // ---- Between the statements of a save ----

  /** Writing an exchange is sound exactly when its thread is still there and theirs. The
      insert does not look. */
  lemma ExchangeIsSoundIff(chat: Chat, owner: Owner, t: int, now: int, question: string, answer: string, tier: string)
    requires Sound(chat)
    ensures Sound(Exchanged(chat, owner, t, now, question, answer, tier)) <==>
            t in chat.threads && chat.threads[t].owner == owner
  {
    var c := Exchanged(chat, owner, t, now, question, answer, tier);
    assert c.messages[chat.nextMessage] == Question(owner, t, now, question);
  }

  /** A thread just opened has no message, so any drop of empty threads takes it: a sweep, or
      a save of the same person elsewhere, that ends between a save's opening of its thread
      and its inserts leaves the exchange in no thread. */
  lemma DropBetweenOrphans(chat: Chat, owner: Owner, drop: Option<Owner>, now: int, question: string, answer: string,
                           tier: string)
    requires Sound(chat) && (drop.None? || drop.value == owner)
    ensures var t := chat.nextThread;
            var begun := Created(chat, owner, None, now);
            && Sound(begun) && t in begun.threads
            && t !in WithoutEmpty(begun, drop).threads
            && !Sound(Exchanged(WithoutEmpty(begun, drop), owner, t, now, question, answer, tier))
  {
    var t := chat.nextThread;
    var dropped := WithoutEmpty(Created(chat, owner, None, now), drop);
    var c := Exchanged(dropped, owner, t, now, question, answer, tier);
    assert !HasMessage(chat.messages, t);
    assert c.messages[chat.nextMessage] == Question(owner, t, now, question);
  }

  // ---- Rows and threads, field by field ----

  /** A thread counts for a workspace when it is of that one; a thread of none also counts for the
      dashboard; and without a workspace every thread counts. */
  lemma InWorkspaceIff(workspace: Option<string>, w: string)
    ensures InWorkspace(workspace, w) <==>
            workspace == None || workspace == Some(w) || (workspace == Some("dash") && w == "")
  {
  }

  /** The latest thread is theirs, in the workspace, and of those the one with the last activity;
      among equals the one opened last. */
  lemma LatestInFields(chat: Chat, owner: Owner, workspace: Option<string>, t: int)
    ensures IsLatest(chat, owner, workspace, t) <==>
            && t in chat.threads && chat.threads[t].owner == owner && InWorkspace(workspace, chat.threads[t].workspace)
            && forall s | s in chat.threads && s != t :: NoLater(chat.threads, owner, workspace, s, t)
  {
    if IsLatest(chat, owner, workspace, t) {
      forall s | s in chat.threads && s != t ensures NoLater(chat.threads, owner, workspace, s, t) {
        assert Theirs(chat, owner, workspace, s) ==> !After(chat, s, t);
      }
    }
  }

  predicate NoLater(threads: map<int, Thread>, owner: Owner, workspace: Option<string>, s: int, t: int)
    requires s in threads && t in threads
  {
    threads[s].owner == owner && InWorkspace(workspace, threads[s].workspace) ==>
      threads[s].updatedAt < threads[t].updatedAt || (threads[s].updatedAt == threads[t].updatedAt && s < t)
  }

  /** An exchange goes into the thread asked for if that is theirs and in the workspace, and not
      anywhere else that exists; without one asked for, into the latest. */
  lemma UsableIff(chat: Chat, owner: Owner, asked: Option<int>, workspace: Option<string>, t: int)
    ensures asked.Some? ==>
              (Usable(chat, owner, asked, workspace, t) <==>
               && asked == Some(t) && t in chat.threads && chat.threads[t].owner == owner
               && InWorkspace(workspace, chat.threads[t].workspace))
    ensures asked.None? ==> (Usable(chat, owner, asked, workspace, t) <==> IsLatest(chat, owner, workspace, t))
  {
  }

  /** A new thread has the next id, its owner and workspace, and no activity but its opening. */
  lemma OpensInFields(chat: Chat, owner: Owner, workspace: Option<string>, now: int)
    requires Sound(chat)
    ensures var c, t := Created(chat, owner, workspace, now), chat.nextThread;
            && c.messages == chat.messages && c.nextMessage == chat.nextMessage && c.nextThread == t + 1
            && t !in chat.threads && c.threads.Keys == chat.threads.Keys + {t}
            && (forall s | s in chat.threads :: c.threads[s] == chat.threads[s])
            && c.threads[t].owner == owner && c.threads[t].createdAt == now == c.threads[t].updatedAt
            && (workspace == None ==> c.threads[t].workspace == "")
            && (workspace != None ==> workspace == Some(c.threads[t].workspace))
  {
  }

  /** The first n characters. */
  predicate IsHead(r: string, s: string, n: nat) {
    r <= s && |r| == if |s| < n then |s| else n
  }

  /** An exchange is two messages of the person in the thread: the question, at most 1000
      characters of it, and then the answer, at most 2000, with the tier. The thread's activity is
      now. */
  lemma ExchangesInFields(chat: Chat, owner: Owner, t: int, now: int, question: string, answer: string, tier: string)
    requires Sound(chat)
    ensures var c, i := Exchanged(chat, owner, t, now, question, answer, tier), chat.nextMessage;
            && c.nextMessage == i + 2 && c.nextThread == chat.nextThread
            && i !in chat.messages && i + 1 !in chat.messages
            && c.messages.Keys == chat.messages.Keys + {i, i + 1}
            && (forall j | j in chat.messages :: c.messages[j] == chat.messages[j])
            && c.messages[i].owner == owner == c.messages[i + 1].owner
            && c.messages[i].role == "user" && c.messages[i + 1].role == "model"
            && c.messages[i].tier == "" && c.messages[i + 1].tier == tier
            && c.messages[i].thread == Some(t) == c.messages[i + 1].thread
            && c.messages[i].createdAt == now == c.messages[i + 1].createdAt
            && IsHead(c.messages[i].text, question, 1000) && IsHead(c.messages[i + 1].text, answer, 2000)
            && c.threads.Keys == chat.threads.Keys
            && forall s | s in chat.threads ::
                 c.threads[s] == if s == t then chat.threads[s].(updatedAt := now) else chat.threads[s]
  {
  }

  /** The cap keeps a row of the person when fewer than 100 of theirs are newer, and every row of
      anyone else. */
  lemma CapsInFields(chat: Chat, owner: Owner, i: int)
    requires i in chat.messages
    ensures var kept := Capped(chat.messages, owner);
            var newer := set j | j in chat.messages && chat.messages[j].owner == owner && j > i;
            && (i in kept <==> chat.messages[i].owner != owner || |newer| < 100)
            && (i in kept ==> kept[i] == chat.messages[i])
            && kept.Keys <= chat.messages.Keys
  {
    var newer := set j | j in chat.messages && chat.messages[j].owner == owner && j > i;
    assert Newer(IdsOf(chat.messages, owner), i) == newer;
  }

  /** A drop of empty threads keeps a thread when some message is in it, or when it is not of the
      person the drop is for; messages stay. */
  lemma DropsInFields(chat: Chat, whose: Option<Owner>, t: int)
    requires t in chat.threads
    ensures var c := WithoutEmpty(chat, whose);
            && c.messages == chat.messages && c.nextMessage == chat.nextMessage && c.nextThread == chat.nextThread
            && c.threads.Keys <= chat.threads.Keys
            && (t in c.threads ==> c.threads[t] == chat.threads[t])
            && (t in c.threads <==>
                  || (exists i | i in chat.messages :: chat.messages[i].thread == Some(t))
                  || (whose != None && whose != Some(chat.threads[t].owner)))
  {
  }

  /** A save is the exchange, then the cap, then the drop of the person's empty threads. */
  lemma SavesInOrder(chat: Chat, owner: Owner, t: int, now: int, question: string, answer: string, tier: string)
    ensures var begun := if t in chat.threads then chat else Created(chat, owner, None, now);
            var exchanged := Exchanged(begun, owner, t, now, question, answer, tier);
            Saved(chat, owner, t, now, question, answer, tier) ==
            WithoutEmpty(exchanged.(messages := Capped(exchanged.messages, owner)), Some(owner))
  {
  }

  /** A delete takes a thread of theirs and their messages in it; a clear all of theirs; the age
      sweep everyone's old messages, and every thread left empty. */
  lemma DeletesInFields(chat: Chat, owner: Owner, t: int, cutoff: int, i: int)
    requires i in chat.messages
    ensures var deleted, cleared, aged := Deleted(chat, owner, t), Cleared(chat, owner), Aged(chat, cutoff);
            var theirs := t in chat.threads && chat.threads[t].owner == owner;
            && deleted.messages.Keys <= chat.messages.Keys && cleared.messages.Keys <= chat.messages.Keys
            && aged.messages.Keys <= chat.messages.Keys
            && (i in deleted.messages <==> !(theirs && chat.messages[i].owner == owner
                                             && chat.messages[i].thread == Some(t)))
            && (i in cleared.messages <==> chat.messages[i].owner != owner)
            && (i in aged.messages <==> chat.messages[i].createdAt >= cutoff)
            && (i in deleted.messages ==> deleted.messages[i] == chat.messages[i])
            && (i in cleared.messages ==> cleared.messages[i] == chat.messages[i])
            && (i in aged.messages ==> aged.messages[i] == chat.messages[i])
  {
  }

  lemma ThreadsGoInFields(chat: Chat, owner: Owner, t: int, cutoff: int, s: int)
    requires s in chat.threads
    ensures var deleted, cleared, aged := Deleted(chat, owner, t), Cleared(chat, owner), Aged(chat, cutoff);
            && deleted.threads.Keys <= chat.threads.Keys && cleared.threads.Keys <= chat.threads.Keys
            && aged.threads.Keys <= chat.threads.Keys
            && (s in deleted.threads <==> !(s == t && chat.threads[s].owner == owner))
            && (s in cleared.threads <==> chat.threads[s].owner != owner)
            && (s in aged.threads <==>
                  exists i | i in chat.messages ::
                    InThread(chat.messages[i], s) && chat.messages[i].createdAt >= cutoff)
            && (s in deleted.threads ==> deleted.threads[s] == chat.threads[s])
            && (s in cleared.threads ==> cleared.threads[s] == chat.threads[s])
            && (s in aged.threads ==> aged.threads[s] == chat.threads[s])
  {
    var kept := map i | i in chat.messages && chat.messages[i].createdAt >= cutoff :: chat.messages[i];
    if i :| i in chat.messages && InThread(chat.messages[i], s) && chat.messages[i].createdAt >= cutoff {
      assert i in kept && kept[i].thread == Some(s);
    }
    if HasMessage(kept, s) {
      var i :| i in kept && kept[i].thread == Some(s);
      assert InThread(chat.messages[i], s);
    }
  }

  predicate InThread(m: Message, t: int) {
    m.thread == Some(t)
  }

  /** An open, a delete that finds its thread, a clear and a sweep, with nothing in between, are
      their statements in this order. */
  lemma OperationsAreTheirStatements(chat: Chat, owner: Owner, workspace: Option<string>, t: int, now: int, cutoff: int)
    ensures Apply(chat, Open(owner, workspace, now)) == Execute(chat, InsertThread(owner, workspace, now))
    ensures Apply(chat, Delete(owner, t)) ==
            if t in chat.threads && chat.threads[t].owner == owner
            then Execute(Execute(chat, DeleteThread(owner, t)), DeleteMessagesOf(owner, t)) else chat
    ensures Apply(chat, Clear(owner)) == Execute(Execute(chat, ClearMessages(owner)), ClearThreads(owner))
    ensures Apply(chat, Sweep(cutoff)) == Execute(Execute(chat, DeleteOld(cutoff)), DropEmpty(None))
  {
  }

  /** A step of a run leaves what its operation does, and is always possible. */
  lemma StepsLeave(chat: Chat, owner: Owner, workspace: Option<string>, t: int, now: int, cutoff: int)
    ensures Apply(chat, Open(owner, workspace, now)) == Created(chat, owner, workspace, now)
    ensures Apply(chat, Delete(owner, t)) == Deleted(chat, owner, t)
    ensures Apply(chat, Sweep(cutoff)) == Aged(chat, cutoff)
    ensures Possible(chat, Open(owner, workspace, now)) && Possible(chat, Delete(owner, t))
    ensures Possible(chat, Clear(owner)) && Possible(chat, Sweep(cutoff))
  {
  }
}
