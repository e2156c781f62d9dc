/** The post office (network/post.cc) over the unreliable network (machine/network.cc),
seen from one receiving machine and all the machines that send to it.

The socket is a first-in first-out channel that may lose packets. Mailboxes are
first-in first-out, as module SynchLists proves of the list they are built on. */
module PostOffices {
  import opened Words
  import opened DiskFormat
  import Devices
  import Lists

  type Tid = Devices.Tid
  type Machine = word

  const MAX_PACKET_SIZE := 52
  const MAX_MAIL_SIZE := 40

  /** PacketHeader and MailHeader have the same three fields. */
  datatype Header = Header(to: word, from: word, length: word)

  datatype Mail = Mail(pktHdr: Header, mailHdr: Header, data: seq<byte>)

  /* Bytes on the wire. */

  /** A header, its data, and whatever pads the buffer. */
  function Pack(h: Header, data: seq<byte>, padding: seq<byte>): (bs: seq<byte>)
    ensures |bs| == 12 + |data| + |padding|
  {
    EncodeWords([h.to, h.from, h.length]) + data + padding
  }

  function HeaderOf(bs: seq<byte>): Header
    requires |bs| >= 12
  {
    var ws := DecodeWords(bs[..12]);
    Header(ws[0], ws[1], ws[2])
  }

  predicate WellFramed(bs: seq<byte>) { |bs| >= 12 && 12 + HeaderOf(bs).length <= |bs| }

  function BodyOf(bs: seq<byte>): (data: seq<byte>)
    requires WellFramed(bs)
    ensures |data| == HeaderOf(bs).length
  {
    bs[12..12 + HeaderOf(bs).length]
  }

  lemma PackRoundTrip(h: Header, data: seq<byte>, padding: seq<byte>)
    requires h.length == |data|
    ensures var bs := Pack(h, data, padding); WellFramed(bs) && HeaderOf(bs) == h && BodyOf(bs) == data
  {
    hide EncodeWords; hide DecodeWords;
    var bs := Pack(h, data, padding);
    assert bs[..12] == EncodeWords([h.to, h.from, h.length]);
    WordsRoundTrip([h.to, h.from, h.length]);
  }

  /** What the post office hands to the network. */
  function Payload(mail: Mail): seq<byte> { Pack(mail.mailHdr, mail.data, []) }

  /** A wire buffer that holds the packet of this mail. */
  predicate Framed(bs: seq<byte>, mail: Mail) {
    WellFramed(bs) && HeaderOf(bs) == mail.pktHdr && BodyOf(bs) == Payload(mail)
  }

  /* The machine. */

  /** What a thread asks PostOfficeOutput::Send to send. */
  datatype Letter = Letter(machine: Machine, mailHdr: Header, data: seq<byte>)

  /** A letter in the hands of the sending machine's thread. */
  datatype Request = Request(from: Machine, who: Tid, letter: Letter)

  /** The mail is the letter, and names the machine it came from. */
  predicate Carries(mail: Mail, r: Request) {
    && mail.pktHdr.from == r.from && mail.pktHdr.to == r.letter.machine
    && mail.mailHdr == r.letter.mailHdr && mail.data == r.letter.data
  }

  /** The mail it becomes: Send fills in the packet header. */
  function Posted(from: Machine, letter: Letter): Mail
    requires |letter.data| <= MAX_MAIL_SIZE
  {
    Mail(Header(letter.machine, from, 12 + |letter.data|), letter.mailHdr, letter.data)
  }

  /** The ASSERTs of Send; a letter to `host` names a box that exists there. */
  predicate Acceptable(letter: Letter, host: Machine, numBoxes: nat) {
    && letter.mailHdr.length == |letter.data| <= MAX_MAIL_SIZE
    && Signed(letter.mailHdr.to) >= 0
    && (letter.machine == host ==> letter.mailHdr.to < numBoxes)
  }

  datatype Worker = Waiting | Notified | Sorting(pktHdr: Header, buffer: seq<byte>)

  /** The output side of every machine, the wire into machine `host`, and the
      input side of `host`. The last five fields are history: the letters for
      `host` in the order they were given to the network, the mail that is not
      lost with its places among them, the mail put into boxes and the mail
      taken from each box. */
  datatype State = State(
    host: Machine,
    senders: map<Machine, Devices.Device>, asked: map<(Machine, Tid), Letter>,
    wire: seq<seq<byte>>,
    inHdr: Header, inbox: seq<byte>, available: nat, worker: Worker, boxes: seq<seq<Mail>>,
    requests: seq<Request>, kept: seq<Mail>, marks: seq<nat>, placed: seq<Mail>, taken: seq<seq<Mail>>)

  datatype Event =
    | Call(machine: Machine, who: Tid, letter: Letter)
    | Tick(machine: Machine, who: Tid, lost: bool, padding: seq<byte>)
    | SendInt(machine: Machine)
    | Lose(packet: nat)
    | Poll
    | Work
    | Get(box: nat)

  predicate At(s: State, m: Machine, t: Tid, phase: Devices.Phase) {
    m in s.senders && t in s.senders[m].phases && s.senders[m].phases[t] == phase
  }

  /** NetworkOutput::Send: onto the wire, unless the packet is lost at once. */
  function Transmit(s: State, r: Request, mail: Mail, lost: bool, padding: seq<byte>): State {
    var s' := s.(requests := s.requests + [r]);
    if lost then s'
    else
      s'.(wire := s.wire + [Pack(mail.pktHdr, Payload(mail), padding)],
          kept := s.kept + [mail], marks := s.marks + [|s.requests|])
  }

  /** NetworkInput::CallBack. */
  function Receive(s: State): State {
    if s.inHdr.length != 0 || s.wire == [] || !WellFramed(s.wire[0]) then s
    else
      s.(wire := s.wire[1..], inHdr := HeaderOf(s.wire[0]), inbox := BodyOf(s.wire[0]), available := s.available + 1)
  }

  /** PostOfficeInput::PostalDelivery. */
  function Deliver(s: State): State {
    match s.worker
    case Waiting => if s.available == 0 then s else s.(available := s.available - 1, worker := Notified)
    case Notified => s.(worker := Sorting(s.inHdr, s.inbox), inHdr := s.inHdr.(length := 0))
    case Sorting(pktHdr, buffer) =>
      if WellFramed(buffer) && HeaderOf(buffer).to < |s.boxes| then
        var mail := Mail(pktHdr, HeaderOf(buffer), BodyOf(buffer));
        var b := mail.mailHdr.to;
        s.(worker := Waiting, boxes := s.boxes[b := s.boxes[b] + [mail]], placed := s.placed + [mail])
      else s
  }

  /** MailBox::Get; a caller waits while the box is empty. */
  function Fetch(s: State, b: nat): State {
    if b < |s.boxes| && b < |s.taken| && s.boxes[b] != [] then
      s.(boxes := s.boxes[b := s.boxes[b][1..]], taken := s.taken[b := s.taken[b] + [s.boxes[b][0]]])
    else s
  }

  /** How many of the unlost mails are no longer on the wire. */
  function Arrived(s: State): nat {
    |s.placed| + (if s.worker.Sorting? then 1 else 0) + (if s.inHdr.length != 0 then 1 else 0)
  }

  function Drop(s: State, i: nat): State {
    var k := Arrived(s) + i;
    if i < |s.wire| && k < |s.marks| && k < |s.kept| then
      s.(wire := Lists.Drop(s.wire, i), kept := Lists.Drop(s.kept, k), marks := Lists.Drop(s.marks, k))
    else s
  }

  function Move(s: State, m: Machine, e: Devices.Event): State {
    if m in s.senders then s.(senders := s.senders[m := Devices.Step(s.senders[m], e)]) else s
  }

  function Step(s: State, e: Event): State {
    match e
    case Call(m, t, letter) =>
      if At(s, m, t, Devices.Outside) && Acceptable(letter, s.host, |s.boxes|) then
        Move(s, m, Devices.Call(t)).(asked := s.asked[(m, t) := letter])
      else s
    case Tick(m, t, lost, padding) =>
      var s' := Move(s, m, Devices.Tick(t));
      if At(s, m, t, Devices.Ready) && (m, t) in s.asked && |s.asked[(m, t)].data| <= MAX_MAIL_SIZE
         && s.asked[(m, t)].machine == s.host then
        Transmit(s', Request(m, t, s.asked[(m, t)]), Posted(m, s.asked[(m, t)]), lost, padding)
      else s'
    case SendInt(m) => Move(s, m, Devices.Interrupt)
    case Lose(i) => Drop(s, i)
    case Poll => Receive(s)
    case Work => Deliver(s)
    case Get(b) => Fetch(s, b)
  }

  function Initial(host: Machine, machines: set<Machine>, threads: set<Tid>, numBoxes: nat): State {
    State(host, map m | m in machines :: Devices.Initial(threads), map[], [],
          Header(0, 0, 0), [], 0, Waiting, seq(numBoxes, _ => []), [], [], [], [], seq(numBoxes, _ => []))
  }

  function Run(s: State, events: seq<Event>): State
    decreases |events|
  {
    if events == [] then s else Step(Run(s, events[..|events| - 1]), events[|events| - 1])
  }

  /* The invariant. */

  ghost predicate SendersOk(s: State) {
    && (forall m :: m in s.senders ==> Devices.Inv(s.senders[m]))
    && (forall m, t :: m in s.senders && t in s.senders[m].phases && !s.senders[m].phases[t].Outside? ==>
          (m, t) in s.asked && Acceptable(s.asked[(m, t)], s.host, |s.boxes|))
  }

  predicate Good(host: Machine, numBoxes: nat, mail: Mail) {
    && mail.mailHdr.length == |mail.data| <= MAX_MAIL_SIZE
    && mail.mailHdr.to < numBoxes
    && mail.pktHdr.to == host && mail.pktHdr.length == 12 + |mail.data|
  }

  /** The one-packet inbox is full exactly when a notification is on its way to
      the worker or in its hands. */
  predicate InboxOk(s: State) {
    s.available + (if s.worker.Notified? then 1 else 0) == (if s.inHdr.length != 0 then 1 else 0)
  }

  predicate Increasing(ks: seq<nat>) { forall i, j :: 0 <= i < j < |ks| ==> ks[i] < ks[j] }

  /** The mails carry some of the letters, in order, those at the indices ks. */
  predicate Embeds(ks: seq<nat>, xs: seq<Mail>, rs: seq<Request>) {
    && |ks| == |xs| && Increasing(ks)
    && forall i :: 0 <= i < |ks| ==> ks[i] < |rs| && Carries(xs[i], rs[ks[i]])
  }

  /** Each mail that is not lost is in one place: put in a box, with the worker,
      in the inbox or on the wire, in this order. */
  ghost predicate FlowOk(s: State) {
    && (forall i :: 0 <= i < |s.kept| ==> Good(s.host, |s.boxes|, s.kept[i]))
    && |s.kept| == Arrived(s) + |s.wire|
    && (forall i :: 0 <= i < |s.placed| ==> s.placed[i] == s.kept[i])
    && (s.worker.Sorting? ==>
          s.worker.pktHdr == s.kept[|s.placed|].pktHdr && s.worker.buffer == Payload(s.kept[|s.placed|]))
    && (s.inHdr.length != 0 ==>
          s.inHdr == s.kept[Arrived(s) - 1].pktHdr && s.inbox == Payload(s.kept[Arrived(s) - 1]))
    && (forall i {:trigger s.wire[i]} :: 0 <= i < |s.wire| ==> Framed(s.wire[i], s.kept[Arrived(s) + i]))
  }

  /** The mails for one box, in order. */
  function InBox(mails: seq<Mail>, b: nat): seq<Mail> {
    if mails == [] then []
    else
      var last := mails[|mails| - 1];
      InBox(mails[..|mails| - 1], b) + (if last.mailHdr.to == b then [last] else [])
  }

  ghost predicate BoxesOk(s: State) {
    && |s.taken| == |s.boxes|
    && forall b :: 0 <= b < |s.boxes| ==> s.taken[b] + s.boxes[b] == InBox(s.placed, b)
  }

  ghost predicate Inv(s: State) {
    SendersOk(s) && InboxOk(s) && FlowOk(s) && BoxesOk(s) && Embeds(s.marks, s.kept, s.requests)
  }

  lemma MoveKeepsSenders(s: State, m: Machine, e: Devices.Event)
    requires SendersOk(s) && (e.Call? ==> (m, e.who) in s.asked && Acceptable(s.asked[(m, e.who)], s.host, |s.boxes|))
    ensures SendersOk(Move(s, m, e))
  {
    hide Devices.Inv; hide Acceptable; hide Devices.Step;
    if m in s.senders {
      var d' := Devices.Step(s.senders[m], e);
      Devices.StepKeepsInv(s.senders[m], e);
      forall t | t in d'.phases && !d'.phases[t].Outside?
        ensures (m, t) in s.asked && Acceptable(s.asked[(m, t)], s.host, |s.boxes|)
      {
        Devices.OnlyCallsEnter(s.senders[m], e, t);
      }
    }
  }

  /** The receiving side does not look at the senders. */
  lemma SendersApart(s: State, s': State)
    requires Inv(s) && SendersOk(s') && s' == s.(senders := s'.senders, asked := s'.asked)
    ensures Inv(s')
  {
    hide SendersOk; hide InBox; hide Framed; hide Payload;
  }

  lemma PackedIsFramed(host: Machine, numBoxes: nat, mail: Mail, padding: seq<byte>)
    requires Good(host, numBoxes, mail)
    ensures Framed(Pack(mail.pktHdr, Payload(mail), padding), mail)
  {
    PackRoundTrip(mail.pktHdr, Payload(mail), padding);
    hide HeaderOf; hide BodyOf; hide WellFramed;
  }

  lemma TransmitFlow(s: State, r: Request, mail: Mail, lost: bool, padding: seq<byte>)
    requires FlowOk(s) && Good(s.host, |s.boxes|, mail)
    ensures FlowOk(Transmit(s, r, mail, lost, padding))
  {
    hide Framed; hide Payload; hide Pack; hide Good;
    PackedIsFramed(s.host, |s.boxes|, mail, padding);
    var s' := Transmit(s, r, mail, lost, padding);
    assert Arrived(s') == Arrived(s);
    hide Arrived;
    forall i | 0 <= i < |s'.wire| ensures Framed(s'.wire[i], s'.kept[Arrived(s) + i]) {
      if i < |s.wire| {
        assert s'.wire[i] == s.wire[i] && s'.kept[Arrived(s) + i] == s.kept[Arrived(s) + i];
      }
    }
  }

  lemma TransmitKeeps(s: State, r: Request, mail: Mail, lost: bool, padding: seq<byte>)
    requires Inv(s) && Good(s.host, |s.boxes|, mail) && Carries(mail, r)
    ensures Inv(Transmit(s, r, mail, lost, padding))
  {
    hide FlowOk; hide InBox; hide Pack; hide Payload; hide Devices.Inv; hide Good; hide Acceptable;
    TransmitFlow(s, r, mail, lost, padding);
  }

  /** NetworkInput::CallBack finds a well-formed packet for this host, and an
      empty inbox when it reads it in. */
  lemma ReceiveKeeps(s: State)
    requires Inv(s)
    ensures s.wire != [] ==> WellFramed(s.wire[0]) && HeaderOf(s.wire[0]).to == s.host
                             && HeaderOf(s.wire[0]).length <= MAX_PACKET_SIZE
    ensures Inv(Receive(s))
  {
    hide InBox; hide Pack; hide HeaderOf; hide BodyOf; hide WellFramed; hide Devices.Inv;
  }

  /** The mail in the worker's hands, decoded, is the one that was posted. */
  lemma SortingMail(s: State)
    requires FlowOk(s) && s.worker.Sorting?
    ensures var mail := s.kept[|s.placed|];
            && WellFramed(s.worker.buffer) && HeaderOf(s.worker.buffer).to < |s.boxes|
            && HeaderOf(s.worker.buffer).length <= MAX_MAIL_SIZE
            && Mail(s.worker.pktHdr, HeaderOf(s.worker.buffer), BodyOf(s.worker.buffer)) == mail
  {
    var mail := s.kept[|s.placed|];
    PackRoundTrip(mail.mailHdr, mail.data, []);
    hide Framed; hide Pack; hide HeaderOf; hide BodyOf; hide WellFramed;
  }

  lemma PlacedInBox(mails: seq<Mail>, mail: Mail, b: nat)
    ensures InBox(mails + [mail], b) == InBox(mails, b) + (if mail.mailHdr.to == b then [mail] else [])
  {
    assert (mails + [mail])[..|mails|] == mails;
  }

  lemma SortingFlow(s: State)
    requires FlowOk(s) && s.worker.Sorting?
    ensures FlowOk(Deliver(s))
  {
    hide Framed; hide Payload; hide HeaderOf; hide BodyOf; hide WellFramed; hide Good;
    SortingMail(s);
    var s' := Deliver(s);
    assert |s'.boxes| == |s.boxes| && s'.placed == s.placed + [s.kept[|s.placed|]];
    assert Arrived(s') == Arrived(s);
    hide Deliver; hide Arrived;
  }

  lemma SortingBoxes(s: State)
    requires FlowOk(s) && BoxesOk(s) && s.worker.Sorting?
    ensures BoxesOk(Deliver(s))
  {
    hide HeaderOf; hide BodyOf; hide WellFramed; hide InBox; hide Framed; hide Payload; hide Good;
    SortingMail(s);
    var s' := Deliver(s);
    var mail := s.kept[|s.placed|];
    hide FlowOk;
    forall b | 0 <= b < |s'.boxes| ensures s'.taken[b] + s'.boxes[b] == InBox(s'.placed, b) {
      PlacedInBox(s.placed, mail, b);
    }
  }

  lemma SortingKeeps(s: State)
    requires Inv(s) && s.worker.Sorting?
    ensures Inv(Deliver(s))
  {
    hide FlowOk; hide BoxesOk; hide HeaderOf; hide BodyOf; hide WellFramed; hide Devices.Inv; hide Acceptable; hide Embeds;
    SortingFlow(s);
    SortingBoxes(s);
  }

  lemma NotifiedKeeps(s: State)
    requires Inv(s) && !s.worker.Sorting?
    ensures Inv(Deliver(s))
  {
    hide InBox; hide Framed; hide Payload; hide HeaderOf; hide BodyOf; hide WellFramed; hide Devices.Inv; hide Increasing;
  }

  lemma FetchKeeps(s: State, b: nat)
    requires Inv(s)
    ensures Inv(Fetch(s, b))
  {
    hide InBox; hide Pack; hide HeaderOf; hide BodyOf; hide WellFramed; hide Devices.Inv; hide Increasing;
  }

  lemma DropKeeps(s: State, i: nat)
    requires Inv(s)
    ensures Inv(Drop(s, i))
  {
    DropFlow(s, i);
    hide FlowOk; hide InBox; hide Devices.Inv; hide Arrived;
  }

  lemma DropFlow(s: State, i: nat)
    requires FlowOk(s)
    ensures FlowOk(Drop(s, i))
  {
    hide Framed; hide Payload; hide Good;
  }

  lemma StepKeepsInv(s: State, e: Event)
    requires Inv(s)
    ensures Inv(Step(s, e))
  {
    hide InboxOk; hide FlowOk; hide BoxesOk; hide Devices.Inv; hide Devices.Step; hide Transmit; hide Deliver; hide Receive;
    hide Fetch; hide Drop;
    match e {
      case Call(m, t, letter) =>
        if At(s, m, t, Devices.Outside) && Acceptable(letter, s.host, |s.boxes|) {
          var s1 := s.(asked := s.asked[(m, t) := letter]);
          SendersApart(s, s1);
          MoveKeepsSenders(s1, m, Devices.Call(t));
          SendersApart(s1, Step(s, e));
        }
      case Tick(m, t, lost, padding) =>
        MoveKeepsSenders(s, m, Devices.Tick(t));
        var s1 := Move(s, m, Devices.Tick(t));
        SendersApart(s, s1);
        if At(s, m, t, Devices.Ready) && s.asked[(m, t)].machine == s.host {
          var letter := s.asked[(m, t)];
          TransmitKeeps(s1, Request(m, t, letter), Posted(m, letter), lost, padding);
        }
      case SendInt(m) =>
        MoveKeepsSenders(s, m, Devices.Interrupt);
        SendersApart(s, Step(s, e));
      case Lose(i) => DropKeeps(s, i);
      case Poll => ReceiveKeeps(s);
      case Work => if s.worker.Sorting? { SortingKeeps(s); } else { NotifiedKeeps(s); }
      case Get(b) => FetchKeeps(s, b);
    }
  }

  lemma InitialInv(host: Machine, machines: set<Machine>, threads: set<Tid>, numBoxes: nat)
    ensures Inv(Initial(host, machines, threads, numBoxes))
  {
    Devices.InitialInv(threads);
    hide Devices.Inv;
    assert forall t :: t in Devices.Initial(threads).phases ==> Devices.Initial(threads).phases[t] == Devices.Outside;
  }

  lemma {:induction false} RunKeepsInv(s: State, events: seq<Event>)
    requires Inv(s)
    ensures Inv(Run(s, events))
    decreases |events|
  {
    if events != [] {
      hide Inv; hide Step;
      RunKeepsInv(s, events[..|events| - 1]);
      StepKeepsInv(Run(s, events[..|events| - 1]), events[|events| - 1]);
    }
  }

  /* What this means. */

  lemma {:induction false} BoxEmbeds(mails: seq<Mail>, b: nat) returns (ks: seq<nat>)
    ensures |ks| == |InBox(mails, b)| && Increasing(ks)
    ensures forall i :: 0 <= i < |ks| ==> ks[i] < |mails| && InBox(mails, b)[i] == mails[ks[i]]
    ensures forall i :: 0 <= i < |ks| ==> InBox(mails, b)[i].mailHdr.to == b
  {
    ks := [];
    if mails != [] {
      var n := |mails| - 1;
      ks := BoxEmbeds(mails[..n], b);
      if mails[n].mailHdr.to == b {
        ks := ks + [n];
      }
    }
  }

  /** Over any interleaving and any loss: the mails taken from a box carry
      letters that were sent to that box of this host, with their data byte for
      byte and the sender's name, and come out in the order in which the letters
      were given to the network. */
  lemma MailArrivesInOrder(host: Machine, machines: set<Machine>, threads: set<Tid>, numBoxes: nat,
                           events: seq<Event>, b: nat) returns (ks: seq<nat>)
    requires b < numBoxes
    ensures var s := Run(Initial(host, machines, threads, numBoxes), events);
            && b < |s.taken|
            && Embeds(ks, s.taken[b], s.requests)
            && forall i :: 0 <= i < |s.taken[b]| ==> s.taken[b][i].mailHdr.to == b && s.taken[b][i].pktHdr.to == host
  {
    var s0 := Initial(host, machines, threads, numBoxes);
    InitialInv(host, machines, threads, numBoxes);
    RunKeepsInv(s0, events);
    BoxesNeverChange(s0, events);
    ks := TakenEmbeds(Run(s0, events), b);
    hide Run; hide Inv;
  }

  /** The mails that machine m sent to box b. */
  function Between(mails: seq<Mail>, m: Machine, b: nat): seq<Mail> {
    if mails == [] then []
    else
      var last := mails[|mails| - 1];
      Between(mails[..|mails| - 1], m, b) + (if last.pktHdr.from == m && last.mailHdr.to == b then [last] else [])
  }

  /** The letters that machine m gave to the network for box b. */
  function Letters(rs: seq<Request>, m: Machine, b: nat): seq<Request> {
    if rs == [] then []
    else
      var last := rs[|rs| - 1];
      Letters(rs[..|rs| - 1], m, b) + (if last.from == m && last.letter.mailHdr.to == b then [last] else [])
  }

  lemma EmbedsMore(ks: seq<nat>, xs: seq<Mail>, ys: seq<Request>, y: Request)
    requires Embeds(ks, xs, ys)
    ensures Embeds(ks, xs, ys + [y])
  {
    hide Carries;
  }

  lemma EmbedsNext(ks: seq<nat>, xs: seq<Mail>, ys: seq<Request>, x: Mail, y: Request)
    requires Embeds(ks, xs, ys) && Carries(x, y)
    ensures Embeds(ks + [|ys|], xs + [x], ys + [y])
  {
    hide Carries;
  }

  lemma EmbedsLess(ks: seq<nat>, xs: seq<Mail>, ys: seq<Request>)
    requires Embeds(ks, xs, ys) && xs != []
    ensures var n, l := |ys| - 1, |xs| - 1;
            && n >= 0 && ks[l] <= n
            && (if ks[l] == n then Carries(xs[l], ys[n]) && Embeds(ks[..l], xs[..l], ys[..n]) else Embeds(ks, xs, ys[..n]))
  {
    hide Carries;
  }

  lemma BetweenLast(mails: seq<Mail>, m: Machine, b: nat)
    requires mails != []
    ensures var n := |mails| - 1;
            Between(mails, m, b) == if mails[n].pktHdr.from == m && mails[n].mailHdr.to == b
                                    then Between(mails[..n], m, b) + [mails[n]] else Between(mails[..n], m, b)
  {
  }

  lemma LettersLast(rs: seq<Request>, m: Machine, b: nat)
    requires rs != []
    ensures var n := |rs| - 1;
            Letters(rs, m, b) == if rs[n].from == m && rs[n].letter.mailHdr.to == b
                                 then Letters(rs[..n], m, b) + [rs[n]] else Letters(rs[..n], m, b)
  {
  }

  lemma BetweenBoth(js: seq<nat>, xs: seq<Mail>, ys: seq<Request>, m: Machine, b: nat) returns (ks: seq<nat>)
    requires xs != [] && ys != [] && Carries(xs[|xs| - 1], ys[|ys| - 1])
    requires Embeds(js, Between(xs[..|xs| - 1], m, b), Letters(ys[..|ys| - 1], m, b))
    ensures Embeds(ks, Between(xs, m, b), Letters(ys, m, b))
  {
    hide Embeds; hide Between; hide Letters;
    BetweenLast(xs, m, b);
    LettersLast(ys, m, b);
    var l, n := |xs| - 1, |ys| - 1;
    ks := js;
    if ys[n].from == m && ys[n].letter.mailHdr.to == b {
      EmbedsNext(js, Between(xs[..l], m, b), Letters(ys[..n], m, b), xs[l], ys[n]);
      ks := js + [|Letters(ys[..n], m, b)|];
    }
  }

  lemma BetweenOne(js: seq<nat>, xs: seq<Mail>, ys: seq<Request>, m: Machine, b: nat)
    requires ys != [] && Embeds(js, Between(xs, m, b), Letters(ys[..|ys| - 1], m, b))
    ensures Embeds(js, Between(xs, m, b), Letters(ys, m, b))
  {
    hide Embeds; hide Between; hide Letters;
    LettersLast(ys, m, b);
    EmbedsMore(js, Between(xs, m, b), Letters(ys[..|ys| - 1], m, b), ys[|ys| - 1]);
  }

  lemma {:induction false} EmbedsBetween(ks: seq<nat>, xs: seq<Mail>, ys: seq<Request>, m: Machine, b: nat)
    returns (js: seq<nat>)
    requires Embeds(ks, xs, ys)
    ensures Embeds(js, Between(xs, m, b), Letters(ys, m, b))
    decreases |ys|
  {
    if xs == [] {
      return [];
    }
    EmbedsLess(ks, xs, ys);
    var n, l := |ys| - 1, |xs| - 1;
    var here := ks[l] == n;
    hide Embeds; hide Between; hide Letters;
    if here {
      js := EmbedsBetween(ks[..l], xs[..l], ys[..n], m, b);
      js := BetweenBoth(js, xs, ys, m, b);
    } else {
      js := EmbedsBetween(ks, xs, ys[..n], m, b);
      BetweenOne(js, xs, ys, m, b);
    }
  }

  /** Of the letters one machine sent to one box, what is taken out carries a
      subsequence. */
  lemma MailFromOneSender(host: Machine, machines: set<Machine>, threads: set<Tid>, numBoxes: nat,
                          events: seq<Event>, b: nat, m: Machine) returns (js: seq<nat>)
    requires b < numBoxes
    ensures var s := Run(Initial(host, machines, threads, numBoxes), events);
            b < |s.taken| && Embeds(js, Between(s.taken[b], m, b), Letters(s.requests, m, b))
  {
    var ks := MailArrivesInOrder(host, machines, threads, numBoxes, events, b);
    hide Run; hide Initial; hide Between; hide Letters; hide Embeds;
    var s := Run(Initial(host, machines, threads, numBoxes), events);
    js := EmbedsBetween(ks, s.taken[b], s.requests, m, b);
  }

  lemma TakenEmbeds(s: State, b: nat) returns (ks: seq<nat>)
    requires Inv(s) && b < |s.boxes|
    ensures Embeds(ks, s.taken[b], s.requests)
    ensures forall i :: 0 <= i < |s.taken[b]| ==> s.taken[b][i].mailHdr.to == b && s.taken[b][i].pktHdr.to == s.host
  {
    hide SendersOk; hide Framed; hide Payload; hide InBox;
    var js := BoxEmbeds(s.placed, b);
    var n := |s.taken[b]|;
    assert s.taken[b] == InBox(s.placed, b)[..n];
    ks := seq(n, i requires 0 <= i < n => s.marks[js[i]]);
  }

  lemma StepKeepsShape(s: State, e: Event)
    ensures |Step(s, e).boxes| == |s.boxes| && Step(s, e).host == s.host
  {
    hide Devices.Step; hide Pack; hide Payload; hide HeaderOf; hide WellFramed; hide BodyOf; hide Arrived;
  }

  lemma {:induction false} BoxesNeverChange(s: State, events: seq<Event>)
    ensures |Run(s, events).boxes| == |s.boxes| && Run(s, events).host == s.host
    decreases |events|
  {
    if events != [] {
      hide Step;
      BoxesNeverChange(s, events[..|events| - 1]);
      StepKeepsShape(Run(s, events[..|events| - 1]), events[|events| - 1]);
    }
  }

  /** The inbox is never overwritten: a packet is read in only when there is no
      notification outstanding, and whatever was read in is still in one place. */
  lemma InboxIsNeverOverwritten(host: Machine, machines: set<Machine>, threads: set<Tid>, numBoxes: nat, events: seq<Event>)
    ensures var s := Run(Initial(host, machines, threads, numBoxes), events);
            && s.available + (if s.worker.Notified? then 1 else 0) == (if s.inHdr.length != 0 then 1 else 0)
            && |s.kept| == Arrived(s) + |s.wire|
            && forall m, t :: At(s, m, t, Devices.Ready) ==> !s.senders[m].active
  {
    var s0 := Initial(host, machines, threads, numBoxes);
    InitialInv(host, machines, threads, numBoxes);
    RunKeepsInv(s0, events);
    var s := Run(s0, events);
    hide Run; hide Initial; hide BoxesOk; hide Devices.Inv;
    forall m, t | At(s, m, t, Devices.Ready) ensures !s.senders[m].active {
      Devices.AssertionsHold(s.senders[m], t);
    }
  }

  /* Where the letters come from. */

  /** The thread has called Send and not yet given the letter to the network. */
  predicate Sending(s: State, m: Machine, t: Tid) {
    m in s.senders && t in s.senders[m].phases
    && s.senders[m].phases[t] in {Devices.Locking, Devices.Locked, Devices.Ready}
  }

  /** The event is an acceptable call of Send by a thread free to make it. */
  predicate Enters(s: State, e: Event) {
    e.Call? && At(s, e.machine, e.who, Devices.Outside) && Acceptable(e.letter, s.host, |s.boxes|)
  }

  /** It makes a thread hand over its letter. */
  predicate HandsOver(s: State, e: Event) { e.Tick? && At(s, e.machine, e.who, Devices.Ready) }

  predicate SameThread(r: Request, q: Request) { r.from == q.from && r.who == q.who }

  /** calls[i] is the event that brought the i-th letter to the network, own the
      one whose letter a thread has yet to hand over; a thread's letters are
      handed over in the order it sent them, each once. */
  ghost predicate Sources(events: seq<Event>, s: State, calls: seq<nat>, own: map<(Machine, Tid), nat>) {
    && |calls| == |s.requests|
    && (forall i :: 0 <= i < |calls| ==>
          && calls[i] < |events| && s.requests[i].letter.machine == s.host
          && events[calls[i]] == Call(s.requests[i].from, s.requests[i].who, s.requests[i].letter))
    && (forall i, j :: 0 <= i < j < |calls| && SameThread(s.requests[i], s.requests[j]) ==> calls[i] < calls[j])
    && (forall m: Machine, t: Tid :: Sending(s, m, t) ==>
          && (m, t) in own && own[(m, t)] < |events| && (m, t) in s.asked
          && events[own[(m, t)]] == Call(m, t, s.asked[(m, t)]))
    && (forall m: Machine, t: Tid, i :: Sending(s, m, t) && 0 <= i < |calls| && s.requests[i].from == m && s.requests[i].who == t ==>
          calls[i] < own[(m, t)])
  }

  /** Threads that go on sending the same letter keep their sources. */
  lemma SourcesKept(events: seq<Event>, s: State, s': State, e: Event, calls: seq<nat>, own: map<(Machine, Tid), nat>)
    requires Sources(events, s, calls, own) && s'.requests == s.requests && s'.host == s.host && s'.asked == s.asked
    requires forall m: Machine, t: Tid :: Sending(s', m, t) ==> Sending(s, m, t)
    ensures Sources(events + [e], s', calls, own)
  {
    hide Sending;
  }

  lemma CallSends(s: State, m: Machine, t: Tid, letter: Letter)
    requires At(s, m, t, Devices.Outside) && Acceptable(letter, s.host, |s.boxes|)
    ensures var s' := Step(s, Call(m, t, letter));
            && s'.requests == s.requests && s'.host == s.host && s'.asked == s.asked[(m, t) := letter]
            && forall m': Machine, t': Tid :: Sending(s', m', t') ==> (m', t') == (m, t) || Sending(s, m', t')
  {
    hide Acceptable;
  }

  lemma SourcesOfCall(events: seq<Event>, s: State, m: Machine, t: Tid, letter: Letter, calls: seq<nat>,
                      own: map<(Machine, Tid), nat>)
    requires Sources(events, s, calls, own) && At(s, m, t, Devices.Outside) && Acceptable(letter, s.host, |s.boxes|)
    ensures Sources(events + [Call(m, t, letter)], Step(s, Call(m, t, letter)), calls, own[(m, t) := |events|])
  {
    CallSends(s, m, t, letter);
    hide Step; hide Sending; hide Acceptable; hide At;
  }

  lemma TickSends(s: State, m: Machine, t: Tid, lost: bool, padding: seq<byte>)
    requires SendersOk(s) && At(s, m, t, Devices.Ready)
    ensures Sending(s, m, t) && (m, t) in s.asked
    ensures var s', letter := Step(s, Tick(m, t, lost, padding)), s.asked[(m, t)];
            && s'.asked == s.asked && s'.host == s.host
            && s'.requests == s.requests + (if letter.machine == s.host then [Request(m, t, letter)] else [])
            && forall m': Machine, t': Tid :: Sending(s', m', t') ==> (m', t') != (m, t) && Sending(s, m', t')
  {
    hide Devices.Inv; hide Pack; hide Payload; hide Posted;
  }

  lemma SourcesOfRequest(events: seq<Event>, s: State, e: Event, calls: seq<nat>, own: map<(Machine, Tid), nat>)
    requires SendersOk(s) && Sources(events, s, calls, own) && HandsOver(s, e)
    ensures (e.machine, e.who) in own && (e.machine, e.who) in s.asked
    ensures Sources(events + [e], Step(s, e), CallsAfter(s, e, calls, own), own)
  {
    TickSends(s, e.machine, e.who, e.lost, e.padding);
    hide SendersOk; hide Step; hide Sending; hide At;
    if s.asked[(e.machine, e.who)].machine == s.host {
      SourcesOfNew(events, s, Step(s, e), e, e.machine, e.who, calls, own);
    } else {
      SourcesKept(events, s, Step(s, e), e, calls, own);
    }
  }

  /** A letter for this host joins the requests when it is handed over. */
  function CallsAfter(s: State, e: Event, calls: seq<nat>, own: map<(Machine, Tid), nat>): seq<nat>
    requires HandsOver(s, e) ==> (e.machine, e.who) in own && (e.machine, e.who) in s.asked
  {
    if HandsOver(s, e) && s.asked[(e.machine, e.who)].machine == s.host then calls + [own[(e.machine, e.who)]] else calls
  }

  lemma SourcesOfNew(events: seq<Event>, s: State, s': State, e: Event, m: Machine, t: Tid, calls: seq<nat>,
                     own: map<(Machine, Tid), nat>)
    requires Sources(events, s, calls, own) && Sending(s, m, t)
    requires s'.asked == s.asked && s'.host == s.host && s.asked[(m, t)].machine == s.host
    requires s'.requests == s.requests + [Request(m, t, s.asked[(m, t)])]
    requires forall m': Machine, t': Tid :: Sending(s', m', t') ==> (m', t') != (m, t) && Sending(s, m', t')
    ensures Sources(events + [e], s', calls + [own[(m, t)]], own)
  {
    hide Sending;
  }

  /** No other event lets a thread start or hand over. */
  lemma OthersSend(s: State, e: Event)
    requires !Enters(s, e) && !HandsOver(s, e)
    ensures var s' := Step(s, e);
            && s'.requests == s.requests && s'.host == s.host && s'.asked == s.asked
            && forall m: Machine, t: Tid :: Sending(s', m, t) ==> Sending(s, m, t)
  {
    hide Acceptable; hide Pack; hide Payload; hide HeaderOf; hide BodyOf; hide WellFramed; hide Arrived;
  }

  lemma SourcesStep(events: seq<Event>, s: State, e: Event, calls: seq<nat>, own: map<(Machine, Tid), nat>)
    returns (calls': seq<nat>, own': map<(Machine, Tid), nat>)
    requires SendersOk(s) && Sources(events, s, calls, own)
    ensures Sources(events + [e], Step(s, e), calls', own')
    ensures own' == if Enters(s, e) then own[(e.machine, e.who) := |events|] else own
    ensures HandsOver(s, e) ==> (e.machine, e.who) in own && (e.machine, e.who) in s.asked
    ensures calls' == CallsAfter(s, e, calls, own)
  {
    hide SendersOk; hide Sources; hide Step; hide Acceptable; hide Sending; hide At;
    calls', own' := calls, own;
    if Enters(s, e) {
      SourcesOfCall(events, s, e.machine, e.who, e.letter, calls, own);
      own' := own[(e.machine, e.who) := |events|];
    } else if HandsOver(s, e) {
      SourcesOfRequest(events, s, e, calls, own);
      calls' := CallsAfter(s, e, calls, own);
    } else {
      OthersSend(s, e);
      SourcesKept(events, s, Step(s, e), e, calls, own);
    }
  }

  /** Every letter sent to this host was given to the network, or its thread is
      still on its way to do so. */
  ghost predicate Served(s0: State, events: seq<Event>, calls: seq<nat>, own: map<(Machine, Tid), nat>) {
    var s := Run(s0, events);
    forall k :: 0 <= k < |events| && Enters(Run(s0, events[..k]), events[k]) && events[k].letter.machine == s0.host ==>
      k in calls || StillSending(s, events[k], k, own)
  }

  predicate StillSending(s: State, call: Event, k: nat, own: map<(Machine, Tid), nat>)
    requires call.Call?
  {
    && Sending(s, call.machine, call.who)
    && (call.machine, call.who) in own && own[(call.machine, call.who)] == k
    && (call.machine, call.who) in s.asked && s.asked[(call.machine, call.who)] == call.letter
  }

  lemma OthersStay(s: State, e: Event, m: Machine, t: Tid)
    requires Sending(s, m, t) && !(HandsOver(s, e) && e.machine == m && e.who == t)
    ensures Sending(Step(s, e), m, t)
    ensures (m, t) in s.asked ==> (m, t) in Step(s, e).asked && Step(s, e).asked[(m, t)] == s.asked[(m, t)]
  {
    hide Acceptable; hide Pack; hide Payload; hide HeaderOf; hide BodyOf; hide WellFramed; hide Arrived;
  }

  lemma EnteredSends(s: State, e: Event)
    requires Enters(s, e)
    ensures Sending(Step(s, e), e.machine, e.who) && Step(s, e).asked == s.asked[(e.machine, e.who) := e.letter]
  {
    hide Acceptable;
  }

  lemma StillServed(s: State, e: Event, call: Event, k: nat, n: nat, calls: seq<nat>, own: map<(Machine, Tid), nat>)
    requires call.Call? && call.letter.machine == s.host && (k in calls || StillSending(s, call, k, own))
    requires HandsOver(s, e) ==> (e.machine, e.who) in own && (e.machine, e.who) in s.asked
    ensures var own' := if Enters(s, e) then own[(e.machine, e.who) := n] else own;
            k in CallsAfter(s, e, calls, own) || StillSending(Step(s, e), call, k, own')
  {
    hide Acceptable; hide Step;
    if k !in CallsAfter(s, e, calls, own) {
      assert !(HandsOver(s, e) && e.machine == call.machine && e.who == call.who);
      OthersStay(s, e, call.machine, call.who);
      assert !(Enters(s, e) && e.machine == call.machine && e.who == call.who);
      hide HandsOver; hide Enters; hide Sending;
    }
  }

  lemma ServedStep(s0: State, events: seq<Event>, e: Event, calls: seq<nat>, own: map<(Machine, Tid), nat>)
    requires Served(s0, events, calls, own)
    requires var s := Run(s0, events); HandsOver(s, e) ==> (e.machine, e.who) in own && (e.machine, e.who) in s.asked
    ensures var s := Run(s0, events);
            var own' := if Enters(s, e) then own[(e.machine, e.who) := |events|] else own;
            Served(s0, events + [e], CallsAfter(s, e, calls, own), own')
  {
    hide StillSending; hide CallsAfter; hide HandsOver;
    var s, events' := Run(s0, events), events + [e];
    var own' := if Enters(s, e) then own[(e.machine, e.who) := |events|] else own;
    assert events'[..|events|] == events;
    assert Run(s0, events') == Step(s, e);
    BoxesNeverChange(s0, events);
    forall k | 0 <= k < |events'| && Enters(Run(s0, events'[..k]), events'[k]) && events'[k].letter.machine == s0.host
      ensures k in CallsAfter(s, e, calls, own) || StillSending(Step(s, e), events'[k], k, own')
    {
      if k == |events| {
        EnteredSends(s, e);
        NewlySending(Step(s, e), e, k, own');
      } else {
        assert events'[..k] == events[..k];
        StillServed(s, e, events[k], k, |events|, calls, own);
      }
    }
  }

  lemma NewlySending(s: State, e: Event, k: nat, own: map<(Machine, Tid), nat>)
    requires e.Call? && Sending(s, e.machine, e.who) && (e.machine, e.who) in own && own[(e.machine, e.who)] == k
    requires (e.machine, e.who) in s.asked && s.asked[(e.machine, e.who)] == e.letter
    ensures StillSending(s, e, k, own)
  {
  }

  lemma NobodySends(host: Machine, machines: set<Machine>, threads: set<Tid>, numBoxes: nat)
    ensures Sources([], Initial(host, machines, threads, numBoxes), [], map[])
  {
    assert forall t :: t in Devices.Initial(threads).phases ==> Devices.Initial(threads).phases[t] == Devices.Outside;
  }

  /** Every letter the network got was sent by a call, once and in its thread's
      order; and every letter sent to this host gets there, unless its thread is
      still on the way. */
  lemma {:induction false} LettersAreSent(host: Machine, machines: set<Machine>, threads: set<Tid>, numBoxes: nat,
                                          events: seq<Event>)
    returns (calls: seq<nat>, own: map<(Machine, Tid), nat>)
    ensures Sources(events, Run(Initial(host, machines, threads, numBoxes), events), calls, own)
    ensures Served(Initial(host, machines, threads, numBoxes), events, calls, own)
    decreases |events|
  {
    hide Sources; hide Step; hide Inv; hide Initial; hide Enters; hide HandsOver; hide CallsAfter; hide StillSending;
    calls, own := [], map[];
    var s0 := Initial(host, machines, threads, numBoxes);
    if events == [] {
      NobodySends(host, machines, threads, numBoxes);
    } else {
      hide Served;
      var n := |events| - 1;
      var calls0, own0 := LettersAreSent(host, machines, threads, numBoxes, events[..n]);
      InitialInv(host, machines, threads, numBoxes);
      RunKeepsInv(s0, events[..n]);
      InvHasSenders(Run(s0, events[..n]));
      calls, own := SourcesStep(events[..n], Run(s0, events[..n]), events[n], calls0, own0);
      ServedStep(s0, events[..n], events[n], calls0, own0);
      assert events[..n] + [events[n]] == events;
    }
  }

  lemma InvHasSenders(s: State)
    requires Inv(s)
    ensures SendersOk(s)
  {
  }

  /** So each mail taken from a box was sent to this host, in one call of Send on
      the machine the mail names, with these headers and this data. */
  lemma TakenWasSent(host: Machine, machines: set<Machine>, threads: set<Tid>, numBoxes: nat,
                     events: seq<Event>, b: nat, i: nat) returns (k: nat)
    requires b < numBoxes
    ensures var s := Run(Initial(host, machines, threads, numBoxes), events);
            && b < |s.taken|
            && (i < |s.taken[b]| ==>
                  && k < |events| && events[k].Call?
                  && events[k].machine == s.taken[b][i].pktHdr.from && events[k].letter.machine == host
                  && events[k].letter.mailHdr == s.taken[b][i].mailHdr && events[k].letter.data == s.taken[b][i].data)
  {
    var ks := MailArrivesInOrder(host, machines, threads, numBoxes, events, b);
    var calls, own := LettersAreSent(host, machines, threads, numBoxes, events);
    var s0 := Initial(host, machines, threads, numBoxes);
    BoxesNeverChange(s0, events);
    k := if i < |ks| then calls[ks[i]] else 0;
    hide Run; hide Increasing; hide Sending;
  }

  /* Nothing is lost but what the network loses. */

  function Loss(e: Event): nat { if e.Lose? || (e.Tick? && e.lost) then 1 else 0 }

  function Losses(events: seq<Event>): nat {
    if events == [] then 0 else Losses(events[..|events| - 1]) + Loss(events[|events| - 1])
  }

  lemma StepLosses(s: State, e: Event)
    ensures |Step(s, e).requests| + |s.kept| <= |Step(s, e).kept| + |s.requests| + Loss(e)
  {
    hide Pack; hide Payload; hide HeaderOf; hide BodyOf; hide WellFramed; hide Arrived; hide Devices.Step; hide Acceptable;
  }

  lemma {:induction false} RunLosses(s: State, events: seq<Event>)
    requires s.requests == [] && s.kept == []
    ensures |Run(s, events).requests| <= |Run(s, events).kept| + Losses(events)
    decreases |events|
  {
    if events != [] {
      hide Step;
      var n := |events| - 1;
      RunLosses(s, events[..n]);
      StepLosses(Run(s, events[..n]), events[n]);
    }
  }

  /** A strictly increasing sequence has no room to skip. */
  lemma {:induction false} NoGaps(ks: seq<nat>, i: nat)
    requires Increasing(ks) && i < |ks| && forall j :: 0 <= j < |ks| ==> ks[j] < |ks|
    ensures ks[i] == i
  {
    AtLeast(ks, i);
    AtMost(ks, i);
  }

  lemma {:induction false} AtLeast(ks: seq<nat>, i: nat)
    requires Increasing(ks) && i < |ks|
    ensures ks[i] >= i
  {
    if i > 0 {
      AtLeast(ks, i - 1);
    }
  }

  lemma {:induction false} AtMost(ks: seq<nat>, i: nat)
    requires Increasing(ks) && i < |ks| && forall j :: 0 <= j < |ks| ==> ks[j] < |ks|
    ensures ks[i] <= i
    decreases |ks| - i
  {
    if i + 1 < |ks| {
      AtMost(ks, i + 1);
    }
  }

  /** In every run, each letter given to the network is in a box, with the
      worker, in the inbox or on the wire, but for as many as the network lost;
      if it lost none, the mails put into boxes carry the first letters, one for
      one, and those of each box are what was taken from it and what is in it. */
  lemma NothingElseIsLost(host: Machine, machines: set<Machine>, threads: set<Tid>, numBoxes: nat, events: seq<Event>)
    ensures var s := Run(Initial(host, machines, threads, numBoxes), events);
            && |s.requests| <= Arrived(s) + |s.wire| + Losses(events)
            && (Losses(events) == 0 ==>
                  && |s.requests| == Arrived(s) + |s.wire|
                  && forall i :: 0 <= i < |s.placed| ==> Carries(s.placed[i], s.requests[i]))
            && |s.taken| == |s.boxes| == numBoxes
            && forall b :: 0 <= b < numBoxes ==> s.taken[b] + s.boxes[b] == InBox(s.placed, b)
  {
    var s0 := Initial(host, machines, threads, numBoxes);
    InitialInv(host, machines, threads, numBoxes);
    RunKeepsInv(s0, events);
    RunLosses(s0, events);
    BoxesNeverChange(s0, events);
    var s := Run(s0, events);
    hide Run; hide Initial; hide SendersOk; hide InBox; hide Framed; hide Payload; hide Losses; hide Arrived; hide Carries;
    if Losses(events) == 0 {
      AllKept(s);
    }
  }

  lemma AllKept(s: State)
    requires Embeds(s.marks, s.kept, s.requests) && |s.requests| <= |s.kept|
    ensures |s.requests| == |s.kept| && forall i :: 0 <= i < |s.kept| ==> Carries(s.kept[i], s.requests[i])
  {
    hide Carries;
    if s.marks != [] {
      AtLeast(s.marks, |s.marks| - 1);
    }
    hide Increasing;
    forall i | 0 <= i < |s.kept| ensures Carries(s.kept[i], s.requests[i]) {
      NoGaps(s.marks, i);
    }
  }
}
