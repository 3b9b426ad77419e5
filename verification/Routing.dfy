/**
  The server tasks that receive messages: each reads its own connection and puts every message on
  the channels of its recipients. Tasks interleave at single channel sends.
*/
module Routing {
  import opened Bytes
  import opened Sequences
  import opened Wire
  import opened WireWriter

  type Id = Str

  /** A channel belongs to a member of a group. */
  datatype Channel = Channel(group: Id, member: Id)

  /** A message as the server keeps it: its header's bytes and its body; `conn` says who read it. */
  datatype Entry = Entry(conn: nat, header: seq<Byte>, body: Body)

  datatype Read = Read(header: seq<Byte>, message: Header)

  datatype Status = Running | Stopped(error: Error) | Panicked

  /**
    A connection: `recipients` are the group's members other than the sender, in the order the
    task's copy of the table lists them; `todo` are those the current message, the last in `log`,
    has not been sent to.
  */
  datatype Conn = Conn(
    sender: Id,
    group: Id,
    members: set<Id>,
    recipients: seq<Id>,
    stream: seq<Byte>,
    todo: seq<Id>,
    log: seq<Read>,
    status: Status)

  datatype State = State(conns: seq<Conn>, channels: map<Channel, seq<Entry>>)

  // ---- steps ----

  /** Where a message goes: to everyone else in the group, or a receipt to the one it names. */
  function Targets(c: Conn, h: Header): seq<Id> {
    if h.body.Size? then c.recipients else [h.group]
  }

  /** The checks made on a message before it is sent on. */
  predicate Acceptable(c: Conn, h: Header) {
    h.sender == c.sender && if h.body.Size? then h.group == c.group else h.group in c.members
  }

  function ReadNext(c: Conn): Conn {
    match GetMessageBytes(c.stream, false)
    case Err(e) => c.(status := Stopped(e))
    case Ok(buf, rest) =>
      match Deserialize(buf[4..])
      case Err(e) => c.(status := Stopped(e))
      case Ok(h, _) =>
        if Acceptable(c, h) then c.(stream := rest, todo := Targets(c, h), log := c.log + [Read(buf, h)])
        else c.(stream := rest, status := Panicked)
  }

  function EntryOf(i: nat, r: Read): Entry {
    Entry(i, r.header, r.message.body)
  }

  predicate Enabled(s: State, i: nat) {
    && i < |s.conns| && s.conns[i].status.Running?
    && (s.conns[i].todo != [] ==>
          && s.conns[i].log != []
          && Channel(s.conns[i].group, s.conns[i].todo[0]) in s.channels)
  }

  /** Connection `i` sends its current message to one more recipient, or reads another message. */
  function Next(s: State, i: nat): State
    requires Enabled(s, i)
  {
    var c := s.conns[i];
    if c.todo == [] then s.(conns := s.conns[i := ReadNext(c)])
    else
      var ch := Channel(c.group, c.todo[0]);
      State(s.conns[i := c.(todo := c.todo[1..])], s.channels[ch := s.channels[ch] + [EntryOf(i, c.log[|c.log| - 1])]])
  }

  ghost predicate Runs(s: State, steps: seq<nat>, s': State)
    decreases |steps|
  {
    if steps == [] then s == s' else Enabled(s, steps[0]) && Runs(Next(s, steps[0]), steps[1..], s')
  }

  // ---- what every step keeps ----

  ghost predicate ValidConn(c: Conn, channels: map<Channel, seq<Entry>>) {
    && NoRepeats(c.recipients) && (forall r :: r in c.recipients <==> r in c.members && r != c.sender)
    && (forall r | r in c.members :: Channel(c.group, r) in channels)
    && NoRepeats(c.todo) && (forall r | r in c.todo :: r in c.members)
    && (c.todo != [] ==> c.log != [])
  }

  function Add(q: seq<Entry>, wanted: bool, e: Entry): seq<Entry> {
    if wanted then q + [e] else q
  }

  predicate IsFor(c: Conn, r: Read, ch: Channel) {
    ch.group == c.group && ch.member in Targets(c, r.message)
  }

  /** The part of a channel that connection `i` put there. */
  function From(i: nat, q: seq<Entry>): seq<Entry> {
    if q == [] then []
    else Add(From(i, q[..|q| - 1]), q[|q| - 1].conn == i, q[|q| - 1])
  }

  /** What connection `i` owes a channel for the messages read: each once, in order. */
  function Owed(i: nat, c: Conn, log: seq<Read>, ch: Channel): seq<Entry> {
    if log == [] then []
    else
      var last := log[|log| - 1];
      Add(Owed(i, c, log[..|log| - 1], ch), IsFor(c, last, ch), EntryOf(i, last))
  }

  /** A message still to be sent to this channel. */
  function Due(i: nat, c: Conn, ch: Channel): seq<Entry> {
    if ch.group == c.group && ch.member in c.todo && c.log != [] then [EntryOf(i, c.log[|c.log| - 1])] else []
  }

  ghost predicate Fair(s: State, i: nat, ch: Channel)
    requires i < |s.conns| && ch in s.channels
  {
    From(i, s.channels[ch]) + Due(i, s.conns[i], ch) == Owed(i, s.conns[i], s.conns[i].log, ch)
  }

  ghost predicate Inv(s: State) {
    && (forall i | 0 <= i < |s.conns| :: ValidConn(s.conns[i], s.channels))
    && (forall i: nat, ch | i < |s.conns| && ch in s.channels :: Fair(s, i, ch))
  }

  lemma OwedSame(i: nat, c: Conn, c': Conn, log: seq<Read>, ch: Channel)
    requires c'.group == c.group && c'.recipients == c.recipients
    ensures Owed(i, c', log, ch) == Owed(i, c, log, ch)
  {
    if log != [] { OwedSame(i, c, c', log[..|log| - 1], ch); }
  }

  lemma OwedSnoc(i: nat, c: Conn, log: seq<Read>, r: Read, ch: Channel)
    ensures Owed(i, c, log + [r], ch) == Add(Owed(i, c, log, ch), IsFor(c, r, ch), EntryOf(i, r))
  {
    assert (log + [r])[..|log|] == log;
  }

  lemma FromSnoc(i: nat, q: seq<Entry>, e: Entry)
    ensures From(i, q + [e]) == Add(From(i, q), e.conn == i, e)
  {
    assert (q + [e])[..|q|] == q;
  }

  /** Reading a message makes it owed and due at once. */
  lemma ReadFair(s: State, s': State, i: nat, ch: Channel)
    requires i < |s.conns| && |s'.conns| == |s.conns| && ch in s.channels && s'.channels == s.channels && Fair(s, i, ch)
    requires s.conns[i].todo == [] && s'.conns[i] == ReadNext(s.conns[i])
    ensures Fair(s', i, ch)
  {
    var c, c' := s.conns[i], s'.conns[i];
    ReadShape(c);
    if c'.log != c.log { NewIsDue(i, c, c', c'.log[|c.log|], From(i, s.channels[ch]), ch); }
    else { OwedSame(i, c, c', c.log, ch); }
  }

  lemma NewIsDue(i: nat, c: Conn, c': Conn, r: Read, sent: seq<Entry>, ch: Channel)
    requires c.todo == [] && c'.group == c.group && c'.recipients == c.recipients
    requires c'.log == c.log + [r] && c'.todo == Targets(c, r.message) && sent == Owed(i, c, c.log, ch)
    ensures sent + Due(i, c', ch) == Owed(i, c', c'.log, ch)
  {
    OwedSame(i, c, c', c'.log, ch);
    OwedSnoc(i, c, c.log, r, ch);
  }

  lemma ReadShape(c: Conn)
    requires c.todo == []
    ensures var c' := ReadNext(c);
            && c'.group == c.group && c'.recipients == c.recipients && c'.members == c.members && c'.sender == c.sender
            && ((c'.log == c.log && c'.todo == []) || exists r ::
                  c'.log == c.log + [r] && c'.todo == Targets(c, r.message) && Acceptable(c, r.message))
  {
    hide Deserialize, GetMessageBytes;
  }

  /** A send moves the message from due to sent, on the channel it goes to and on no other. */
  lemma SendFair(s: State, s': State, i: nat, ch: Channel)
    requires Enabled(s, i) && s.conns[i].todo != [] && s' == Next(s, i) && ValidConn(s.conns[i], s.channels)
    requires ch in s.channels && Fair(s, i, ch)
    ensures Fair(s', i, ch)
  {
    var c, c' := s.conns[i], s'.conns[i];
    OwedSame(i, c, c', c.log, ch);
    var e := EntryOf(i, c.log[|c.log| - 1]);
    if ch == Channel(c.group, c.todo[0]) {
      FromSnoc(i, s.channels[ch], e);
      assert ch.member !in c'.todo;
    } else {
      assert ch.group == c.group ==> (ch.member in c'.todo <==> ch.member in c.todo);
    }
  }

  lemma OthersFair(s: State, s': State, i: nat, k: nat, ch: Channel)
    requires Enabled(s, i) && s' == Next(s, i) && k < |s.conns| && k != i
    requires ch in s.channels && Fair(s, k, ch)
    ensures Fair(s', k, ch)
  {
    var c := s.conns[i];
    if c.todo != [] { FromSnoc(k, s.channels[ch], EntryOf(i, c.log[|c.log| - 1])); }
  }

  lemma NextValid(s: State, s': State, i: nat, k: nat)
    requires Enabled(s, i) && s' == Next(s, i) && k < |s.conns|
    requires ValidConn(s.conns[k], s.channels) && s.channels.Keys == s'.channels.Keys
    ensures ValidConn(s'.conns[k], s'.channels)
  {
    if k == i && s.conns[i].todo == [] { ReadValid(s.conns[i], s.channels); }
  }

  lemma ReadValid(c: Conn, channels: map<Channel, seq<Entry>>)
    requires ValidConn(c, channels) && c.todo == []
    ensures ValidConn(ReadNext(c), channels)
  {
    ReadShape(c);
  }

  lemma NextKeeps(s: State, i: nat)
    requires Inv(s) && Enabled(s, i)
    ensures Inv(Next(s, i)) && Next(s, i).channels.Keys == s.channels.Keys && |Next(s, i).conns| == |s.conns|
  {
    var s' := Next(s, i);
    assert s'.channels.Keys == s.channels.Keys;
    forall k | 0 <= k < |s'.conns| ensures ValidConn(s'.conns[k], s'.channels) { NextValid(s, s', i, k); }
    forall k: nat, ch | k < |s'.conns| && ch in s'.channels
      ensures Fair(s', k, ch)
    {
      assert Fair(s, k, ch);
      if k != i {
        OthersFair(s, s', i, k, ch);
      } else if s.conns[i].todo == [] {
        ReadFair(s, s', i, ch);
      } else {
        SendFair(s, s', i, ch);
      }
    }
  }

  ghost predicate Initial(s: State) {
    && (forall i | 0 <= i < |s.conns| ::
          ValidConn(s.conns[i], s.channels) && s.conns[i].todo == [] && s.conns[i].log == [])
    && (forall ch | ch in s.channels :: s.channels[ch] == [])
  }

  lemma {:induction false} RunKeeps(s: State, steps: seq<nat>, s': State)
    requires Inv(s) && Runs(s, steps, s')
    ensures Inv(s')
    decreases |steps|
  {
    if steps != [] {
      NextKeeps(s, steps[0]);
      RunKeeps(Next(s, steps[0]), steps[1..], s');
    }
  }

  /**
    However the connections interleave, what a connection with no send outstanding has put on a
    channel is exactly what it owes it.
  */
  lemma PerConnectionFifo(s: State, steps: seq<nat>, s': State, i: nat, ch: Channel)
    requires Initial(s) && Runs(s, steps, s') && i < |s'.conns| && ch in s'.channels && s'.conns[i].todo == []
    ensures From(i, s'.channels[ch]) == Owed(i, s'.conns[i], s'.conns[i].log, ch)
  {
    RunKeeps(s, steps, s');
    assert Fair(s', i, ch);
  }

  /** No send or table lookup of an accepted message can fail. */
  lemma NeverStuck(s: State, i: nat)
    requires Inv(s) && i < |s.conns| && s.conns[i].status.Running?
    ensures Enabled(s, i)
  {
    assert ValidConn(s.conns[i], s.channels);
    assert s.conns[i].todo != [] ==> s.conns[i].todo[0] in s.conns[i].todo;
  }

  // ---- whose messages they are ----

  /** A reader panics exactly on a message in another's name, or for a group or a member it does not know. */
  lemma PanicsIff(c: Conn)
    requires !c.status.Panicked?
    ensures ReadNext(c).status.Panicked? <==>
              && GetMessage(c.stream, false).Ok?
              && var h := GetMessage(c.stream, false).value;
                 || h.sender != c.sender
                 || match h.body case Size(_) => h.group != c.group case Receipt => h.group !in c.members
  {
  }

  /** The bytes are a message that `c`'s own client sent: to its group, or as a receipt to `member`. */
  ghost predicate Own(c: Conn, header: seq<Byte>, body: Body, member: Id) {
    && 4 <= |header| && Deserialize(header[4..]).Ok?
    && var h := Deserialize(header[4..]).value;
       && h.sender == c.sender && h.body == body
       && match body case Size(_) => h.group == c.group && member != c.sender case Receipt => h.group == member
  }

  ghost predicate OwnChannels(s: State) {
    && (forall ch, e | ch in s.channels && e in s.channels[ch] ::
          e.conn < |s.conns| && s.conns[e.conn].group == ch.group && Own(s.conns[e.conn], e.header, e.body, ch.member))
    && (forall i | 0 <= i < |s.conns| :: OwnTodo(s.conns[i]))
  }

  ghost predicate OwnTodo(c: Conn) {
    && c.sender !in c.recipients
    && (c.todo != [] ==>
          && c.log != []
          && forall r <- c.todo :: Own(c, c.log[|c.log| - 1].header, c.log[|c.log| - 1].message.body, r))
  }

  lemma OwnRead(c: Conn)
    requires OwnTodo(c) && c.todo == []
    ensures var c' := ReadNext(c); OwnTodo(c') && c'.sender == c.sender && c'.group == c.group
  {
    hide Deserialize, GetMessageBytes;
  }

  lemma SameOwner(c: Conn, c': Conn, header: seq<Byte>, body: Body, member: Id)
    requires c'.sender == c.sender && c'.group == c.group && Own(c, header, body, member)
    ensures Own(c', header, body, member)
  {
  }

  lemma NextKeepsOwn(s: State, i: nat)
    requires OwnChannels(s) && Enabled(s, i)
    ensures OwnChannels(Next(s, i))
  {
    var s', c := Next(s, i), s.conns[i];
    assert OwnTodo(c);
    if c.todo == [] { OwnRead(c); }
    var c' := s'.conns[i];
    forall ch, e | ch in s'.channels && e in s'.channels[ch]
      ensures e.conn < |s'.conns| && s'.conns[e.conn].group == ch.group
      ensures Own(s'.conns[e.conn], e.header, e.body, ch.member)
    {
      if ch in s.channels && e in s.channels[ch] {
        SameOwner(s.conns[e.conn], s'.conns[e.conn], e.header, e.body, ch.member);
      } else {
        assert c.todo[0] in c.todo;
        SameOwner(c, c', e.header, e.body, ch.member);
      }
    }
    forall k | 0 <= k < |s'.conns|
      ensures OwnTodo(s'.conns[k])
    {
      assert OwnTodo(s.conns[k]);
      if k == i && c.todo != [] { OwnLater(c, c'); }
    }
  }

  lemma OwnLater(c: Conn, c': Conn)
    requires OwnTodo(c) && c.todo != [] && c' == c.(todo := c.todo[1..])
    ensures OwnTodo(c')
  {
    forall r | r in c'.todo
      ensures Own(c', c'.log[|c'.log| - 1].header, c'.log[|c'.log| - 1].message.body, r)
    {
      assert r in c.todo;
      SameOwner(c, c', c.log[|c.log| - 1].header, c.log[|c.log| - 1].message.body, r);
    }
  }

  lemma {:induction false} RunKeepsOwn(s: State, steps: seq<nat>, s': State)
    requires OwnChannels(s) && Runs(s, steps, s')
    ensures OwnChannels(s')
    decreases |steps|
  {
    if steps != [] {
      NextKeepsOwn(s, steps[0]);
      RunKeepsOwn(Next(s, steps[0]), steps[1..], s');
    }
  }

  /**
    Over every interleaving: what is in a channel was sent by the client of the connection it came
    from, in its own name, to this group, or is a receipt that names this member.
  */
  lemma EveryoneSpeaksForThemselves(s: State, steps: seq<nat>, s': State, ch: Channel, e: Entry)
    requires Initial(s) && Runs(s, steps, s') && ch in s'.channels && e in s'.channels[ch]
    ensures e.conn < |s'.conns| && s'.conns[e.conn].group == ch.group
    ensures Own(s'.conns[e.conn], e.header, e.body, ch.member)
  {
    forall i | 0 <= i < |s.conns|
      ensures OwnTodo(s.conns[i])
    {
      assert ValidConn(s.conns[i], s.channels);
    }
    RunKeepsOwn(s, steps, s');
  }

  // ---- what is owed ----

  /** The messages read that have a body, as channel entries. */
  function Sizes(i: nat, log: seq<Read>): seq<Entry> {
    if log == [] then []
    else
      var last := log[|log| - 1];
      Add(Sizes(i, log[..|log| - 1]), last.message.body.Size?, EntryOf(i, last))
  }

  /** The receipts read that name this member, as channel entries. */
  function ReceiptsFor(i: nat, log: seq<Read>, member: Id): seq<Entry> {
    if log == [] then []
    else
      var last := log[|log| - 1];
      var named := last.message.body.Receipt? && last.message.group == member;
      Add(ReceiptsFor(i, log[..|log| - 1], member), named, EntryOf(i, last))
  }

  /** The entries with a body, or else the receipts. */
  function Select(q: seq<Entry>, size: bool): seq<Entry> {
    if q == [] then [] else Add(Select(q[..|q| - 1], size), q[|q| - 1].body.Size? == size, q[|q| - 1])
  }

  lemma SelectSnoc(q: seq<Entry>, e: Entry, size: bool)
    ensures Select(q + [e], size) == Add(Select(q, size), e.body.Size? == size, e)
  {
    assert (q + [e])[..|q|] == q;
  }

  /** On the channel of another member: every message with a body, once and in order. */
  lemma {:induction false} SizesReachEveryOther(i: nat, c: Conn, log: seq<Read>, ch: Channel)
    requires ch.group == c.group && ch.member in c.recipients
    ensures Select(Owed(i, c, log, ch), true) == Sizes(i, log)
  {
    if log != [] {
      var init, last := log[..|log| - 1], log[|log| - 1];
      SizesReachEveryOther(i, c, init, ch);
      SelectSnoc(Owed(i, c, init, ch), EntryOf(i, last), true);
    }
  }

  /** On the sender's own channel: none. */
  lemma {:induction false} NoneComesBack(i: nat, c: Conn, log: seq<Read>, ch: Channel)
    requires ch.group != c.group || ch.member !in c.recipients
    ensures Select(Owed(i, c, log, ch), true) == []
  {
    if log != [] {
      var init, last := log[..|log| - 1], log[|log| - 1];
      NoneComesBack(i, c, init, ch);
      SelectSnoc(Owed(i, c, init, ch), EntryOf(i, last), true);
    }
  }

  /** Receipts: exactly those that name the member, once and in order. */
  lemma {:induction false} ReceiptsReachTheirName(i: nat, c: Conn, log: seq<Read>, ch: Channel)
    requires ch.group == c.group
    ensures Select(Owed(i, c, log, ch), false) == ReceiptsFor(i, log, ch.member)
  {
    if log != [] {
      var init, last := log[..|log| - 1], log[|log| - 1];
      ReceiptsReachTheirName(i, c, init, ch);
      SelectSnoc(Owed(i, c, init, ch), EntryOf(i, last), false);
    }
  }

  // ---- byte transparency ----

  function Messages(log: seq<Read>): seq<Header> {
    if log == [] then [] else Messages(log[..|log| - 1]) + [log[|log| - 1].message]
  }

  /** The bytes put on a recipient's socket for an entry. */
  function Emitted(e: Entry): seq<Byte> {
    e.header + Zeros(InlineSize(e.body, false))
  }

  ghost predicate ReadExactly(log: seq<Read>, hs: seq<Message>) {
    |log| <= |hs| && forall j | 0 <= j < |log| :: log[j] == Read(Serialize(hs[j]), hs[j])
  }

  /** The connection has read a front part of the messages written, of which `arriving` is what arrives. */
  ghost predicate Follows(c: Conn, hs: seq<Message>, arriving: seq<Byte>) {
    && ReadExactly(c.log, hs) && Prefix(c.stream, Stream(hs[|c.log|..], false))
    && Messages(c.log) + ReadAll(c.stream, false).0 == ReadAll(arriving, false).0
    && !c.status.Panicked?
    && (c.status.Stopped? ==> c.status.error == Io && Messages(c.log) == ReadAll(arriving, false).0)
  }

  /** The front of what is left of a stream: too short for a header, or the next message and what is left then. */
  lemma ReadPart(hs: seq<Message>, stream: seq<Byte>) returns (rest: seq<Byte>)
    requires Prefix(stream, Stream(hs, false))
    ensures hs == [] || |stream| < HeaderLen(hs[0]) ==> GetMessageBytes(stream, false) == Err(Io)
    ensures hs != [] && |stream| >= HeaderLen(hs[0]) ==>
              GetMessageBytes(stream, false) == Ok(Serialize(hs[0]), rest) && Prefix(rest, Stream(hs[1..], false))
  {
    rest := [];
    if hs != [] {
      var head, body := Serialize(hs[0]), Zeros(InlineSize(hs[0].body, false));
      var c := |stream|;
      if c < |head| {
        CutHead(hs, false, c);
        GetCut(hs[0], false, c);
      } else {
        var more := Stream(hs[1..], false);
        CutJoined(head, body, more, c);
        GetSerialized(hs[0], false, (body + more)[..c - |head|]);
        rest := more[..if c < |head + body| then 0 else c - |head + body|];
      }
    }
  }

  lemma {:induction false} MessagesSnoc(log: seq<Read>, r: Read)
    ensures Messages(log + [r]) == Messages(log) + [r.message]
  {
    assert (log + [r])[..|log|] == log;
  }

  lemma ReadAllCons(stream: seq<Byte>, h: Message, rest: seq<Byte>)
    requires GetMessageBytes(stream, false) == Ok(Serialize(h), rest)
    ensures ReadAll(stream, false).0 == [h] + ReadAll(rest, false).0
  {
    DeserializeSerialize(h);
  }

  lemma ReadAllStep(log: seq<Read>, stream: seq<Byte>, h: Message, rest: seq<Byte>, all: seq<Header>)
    requires Messages(log) + ReadAll(stream, false).0 == all
    requires GetMessageBytes(stream, false) == Ok(Serialize(h), rest)
    ensures Messages(log + [Read(Serialize(h), h)]) + ReadAll(rest, false).0 == all
  {
    ReadAllCons(stream, h, rest);
    MessagesSnoc(log, Read(Serialize(h), h));
    Regroup(Messages(log), [h], ReadAll(rest, false).0);
  }

  lemma ReadNextIs(c: Conn, h: Message, rest: seq<Byte>)
    requires GetMessageBytes(c.stream, false) == Ok(Serialize(h), rest) && Acceptable(c, h)
    ensures ReadNext(c) == c.(stream := rest, todo := Targets(c, h), log := c.log + [Read(Serialize(h), h)])
  {
    DeserializeSerialize(h);
  }

  lemma ReadNextStops(c: Conn)
    requires GetMessageBytes(c.stream, false) == Err(Io)
    ensures ReadNext(c) == c.(status := Stopped(Io)) && ReadAll(c.stream, false).0 == []
  {
  }

  lemma ReadOneMore(log: seq<Read>, hs: seq<Message>)
    requires ReadExactly(log, hs) && |log| < |hs|
    ensures ReadExactly(log + [Read(Serialize(hs[|log|]), hs[|log|])], hs)
  {
  }

  lemma GrowFollows(c: Conn, c': Conn, hs: seq<Message>, arriving: seq<Byte>)
    requires Follows(c, hs, arriving) && c.status.Running? && |c.log| < |hs|
    requires var h := hs[|c.log|];
             && c' == c.(stream := c'.stream, todo := c'.todo, log := c.log + [Read(Serialize(h), h)])
             && GetMessageBytes(c.stream, false) == Ok(Serialize(h), c'.stream)
             && Prefix(c'.stream, Stream(hs[|c.log| + 1..], false))
    ensures Follows(c', hs, arriving)
  {
    ReadOneMore(c.log, hs);
    ReadAllStep(c.log, c.stream, hs[|c.log|], c'.stream, ReadAll(arriving, false).0);
  }

  lemma StopFollows(c: Conn, hs: seq<Message>, arriving: seq<Byte>)
    requires Follows(c, hs, arriving) && ReadAll(c.stream, false).0 == []
    ensures Follows(c.(status := Stopped(Io)), hs, arriving)
  {
    assert Messages(c.log) + [] == Messages(c.log);
  }

  /** One more message read of those written, or an input error when its header has not arrived whole. */
  lemma ReadNextFollows(c: Conn, hs: seq<Message>, arriving: seq<Byte>)
    requires Follows(c, hs, arriving) && c.status.Running? && forall h <- hs :: Acceptable(c, h)
    ensures Follows(ReadNext(c), hs, arriving)
  {
    var k := |c.log|;
    var left := hs[k..];
    var rest := ReadPart(left, c.stream);
    if left != [] && |c.stream| >= HeaderLen(left[0]) {
      assert left[0] == hs[k] && left[1..] == hs[k + 1..];
      ReadNextIs(c, hs[k], rest);
      GrowFollows(c, ReadNext(c), hs, arriving);
    } else {
      ReadNextStops(c);
      StopFollows(c, hs, arriving);
    }
  }

  lemma NextFollows(s: State, k: nat, i: nat, hs: seq<Message>, arriving: seq<Byte>)
    requires Enabled(s, k) && i < |s.conns| && Follows(s.conns[i], hs, arriving)
    requires forall h <- hs :: Acceptable(s.conns[i], h)
    ensures Follows(Next(s, k).conns[i], hs, arriving)
    ensures forall h <- hs :: Acceptable(Next(s, k).conns[i], h)
  {
    var c := s.conns[i];
    if k == i && c.todo == [] {
      ReadNextFollows(c, hs, arriving);
      ReadShape(c);
    }
  }

  lemma {:induction false} RunFollows(s: State, steps: seq<nat>, s': State, i: nat, hs: seq<Message>,
      arriving: seq<Byte>)
    requires Runs(s, steps, s') && i < |s.conns| && Follows(s.conns[i], hs, arriving)
    requires forall h <- hs :: Acceptable(s.conns[i], h)
    ensures i < |s'.conns| && Follows(s'.conns[i], hs, arriving)
    decreases |steps|
  {
    if steps != [] {
      NextFollows(s, steps[0], i, hs, arriving);
      RunFollows(Next(s, steps[0]), steps[1..], s', i, hs, arriving);
    }
  }

  /**
    A connection on which acceptable messages were written, and any front part of their bytes
    arrives, never panics; every message read from it goes out as the very frame that was written;
    and when it stops, all messages whose header arrived were read, in order.
  */
  lemma ByteTransparent(s: State, steps: seq<nat>, s': State, i: nat, hs: seq<Message>)
    requires Initial(s) && Runs(s, steps, s') && i < |s.conns| && s.conns[i].status.Running?
    requires Prefix(s.conns[i].stream, Stream(hs, false)) && forall h <- hs :: Acceptable(s.conns[i], h)
    ensures i < |s'.conns| && !s'.conns[i].status.Panicked? && |s'.conns[i].log| <= |hs|
    ensures forall j | 0 <= j < |s'.conns[i].log| :: Emitted(EntryOf(i, s'.conns[i].log[j])) == Frame(hs[j], false)
    ensures s'.conns[i].status.Stopped? ==> HeadersBefore(hs, |s'.conns[i].log|, |s.conns[i].stream|, false)
  {
    var arriving := s.conns[i].stream;
    FollowsAtFirst(s.conns[i], hs);
    RunFollows(s, steps, s', i, hs, arriving);
    FollowsTransparently(i, s'.conns[i], hs, arriving);
    if s'.conns[i].status.Stopped? { FollowsToTheEnd(s'.conns[i], hs, arriving); }
  }

  lemma FollowsAtFirst(c: Conn, hs: seq<Message>)
    requires c.log == [] && c.status.Running? && Prefix(c.stream, Stream(hs, false))
    ensures Follows(c, hs, c.stream)
  {
    assert hs[0..] == hs;
    EmptyFront(Messages(c.log), ReadAll(c.stream, false).0);
  }

  lemma EmptyFront<T>(a: seq<T>, b: seq<T>)
    requires a == []
    ensures a + b == b
  {
  }

  lemma FollowsTransparently(i: nat, c: Conn, hs: seq<Message>, arriving: seq<Byte>)
    requires Follows(c, hs, arriving)
    ensures forall j | 0 <= j < |c.log| :: Emitted(EntryOf(i, c.log[j])) == Frame(hs[j], false)
  {
    forall j | 0 <= j < |c.log|
      ensures Emitted(EntryOf(i, c.log[j])) == Frame(hs[j], false)
    {
      assert c.log[j] == Read(Serialize(hs[j]), hs[j]);
    }
  }

  lemma FollowsToTheEnd(c: Conn, hs: seq<Message>, arriving: seq<Byte>)
    requires Follows(c, hs, arriving) && c.status.Stopped? && Prefix(arriving, Stream(hs, false))
    ensures HeadersBefore(hs, |c.log|, |arriving|, false)
  {
    var k := CutStream(hs, false, |arriving|);
    assert Stream(hs, false)[..|arriving|] == arriving;
    MessagesLength(c.log);
  }

  lemma {:induction false} MessagesLength(log: seq<Read>)
    ensures |Messages(log)| == |log|
  {
    if log != [] { MessagesLength(log[..|log| - 1]); }
  }
}
