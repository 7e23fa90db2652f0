/** The translator that drives the client: it asks for a batch, resets the client after every failure,
    and splits a batch whose prompt timed out. A session holds every client created so far, because the
    processes of abandoned clients may still print. */
module TranslateSession {
  import opened Text
  import opened RpcClient

  const TRANSLATE_MAX_ATTEMPTS := 2

  datatype Item = Item(cacheKey: string, key: string, text: string, textHash: string)

  /** A client and its process. The process answers prompts in order and at most once each: `answered`
      is the number of the last prompt whose `agent_end` was printed, and `replies` what it printed. */
  datatype Peer = Peer(view: View, answered: nat, replies: map<nat, Outcome>)

  const NEW_PEER := Peer(INITIAL_VIEW, 0, map[])

  /** What the outside world does to a client: the process prints the reply to prompt `tag`, or
      anything else happens that the program does not itself decide. The JSON text `null` is printed only while
      nothing is pending: otherwise the line handler throws, which ends the script. */
  datatype Stimulus = Reply(tag: nat, result: Outcome) | Other(event: Event)

  predicate MayReply(p: Peer, tag: nat) {
    p.answered < tag <= |p.view.written|
  }

  predicate Enabled(p: Peer, s: Stimulus) {
    match s
    case Reply(tag, _) => MayReply(p, tag)
    case Other(Print(o)) => !o.AgentEnd? && (o.Null? ==> p.view.active.None?)
    case Other(WriteFailed(_, _)) => true
    case Other(Expired(call, _, _)) => p.view.active.Some? && call == |p.view.settled|
    case Other(Broke(_)) => true
    case Other(Exited(_)) => true
    case Other(_) => false
  }

  function React(p: Peer, s: Stimulus): Peer {
    match s
    case Reply(tag, result) =>
      Peer(Step(p.view, Print(AgentEnd(result))), tag, p.replies[tag := result])
    case Other(e) => p.(view := Step(p.view, e))
  }

  ghost predicate PeerOk(p: Peer) {
    && Numbered(p.view)
    && p.answered <= |p.view.written|
    && (forall t | t in p.replies :: 1 <= t <= p.answered)
  }

  /** Idle, and no reply to an earlier prompt is still to come. */
  predicate InStep(p: Peer) {
    p.view.waiting == [] && p.view.active.None? && p.answered == |p.view.written|
  }

  /** Abandoned: closed, with nothing started or queued. */
  predicate Retired(p: Peer) {
    p.view.closed && p.view.waiting == [] && p.view.active.None?
  }

  /** The reply to prompt number `tag` of this peer, which asked `message`, was `text`. */
  predicate Answered(p: Peer, tag: nat, message: string, text: string) {
    && 1 <= tag <= |p.view.written|
    && p.view.written[tag - 1].message == message
    && tag in p.replies
    && p.replies[tag] == Resolved(text)
  }

  /** Call number `n` asked `message` as prompt `tag`; it is outstanding and no earlier reply can come,
      or it has settled, and if it resolved then with the reply to this very prompt. */
  predicate Asking(p: Peer, n: nat, tag: nat, message: string) {
    && p.view.waiting == []
    && |p.view.settled| == (if p.view.active.Some? then n else n + 1)
    && (p.view.active.Some? ==>
          && |p.view.written| == tag == p.answered + 1
          && p.view.written[tag - 1].message == message)
    && (p.view.active.None? && p.view.settled[n].Resolved? ==>
          && p.answered == |p.view.written| == tag
          && Answered(p, tag, message, p.view.settled[n].text))
  }

  /** What was written and what was answered is never lost or changed. */
  ghost predicate Extends(p: Peer, q: Peer) {
    && p.view.written <= q.view.written
    && (forall t | t in p.replies :: t in q.replies && q.replies[t] == p.replies[t])
  }

  lemma {:induction false} ReactKeepsPeer(p: Peer, s: Stimulus)
    requires PeerOk(p) && Enabled(p, s)
    ensures PeerOk(React(p, s)) && Extends(p, React(p, s))
    ensures InStep(p) ==> InStep(React(p, s))
    ensures Retired(p) ==> Retired(React(p, s))
  {
  }

  lemma {:induction false} ReactKeepsAsking(p: Peer, s: Stimulus, n: nat, tag: nat, message: string)
    requires PeerOk(p) && Enabled(p, s) && Asking(p, n, tag, message)
    ensures Asking(React(p, s), n, tag, message)
    ensures p.view.active.None? ==> React(p, s).view.settled == p.view.settled
  {
  }

  /** The reply printed next is certain to be the outstanding prompt's own. */
  ghost predicate NextReplyIsOwn(p: Peer)
    requires p.view.active.Some?
  {
    forall tag, result | MayReply(p, tag) ::
      var q := React(p, Reply(tag, result));
      && q.view.settled == p.view.settled + [result]
      && p.view.active.value.id in q.replies
      && q.replies[p.view.active.value.id] == result
  }

  /** The client cannot tell replies apart: the next `agent_end` is the outstanding prompt's own exactly
      when the reply to every earlier prompt of this process has already been printed. */
  lemma {:induction false} NextReplyIsOwnIffNoneIsOwed(p: Peer)
    requires PeerOk(p) && p.view.active.Some?
    ensures NextReplyIsOwn(p) <==> p.answered >= |p.view.written| - 1
  {
    if p.answered < |p.view.written| - 1 {
      assert MayReply(p, p.answered + 1);
      assert !(p.view.active.value.id in React(p, Reply(p.answered + 1, Resolved("late"))).replies);
    }
  }

  function RunPeer(p: Peer, es: seq<Stimulus>): Peer
    decreases |es|
  {
    if es == [] then p else RunPeer(React(p, es[0]), es[1..])
  }

  /** Used without the reset, the client does mix up replies: a prompt is refused, the next one is sent to the
      same process, and the late reply to the refused prompt answers the second. */
  lemma {:induction false} WithoutResetALateReplyAnswersTheNextPrompt(first: string, second: string, text: string)
    requires first != second
    ensures var refusal := Print(Response(1, Some("pi prompt failed")));
            var before := RunPeer(NEW_PEER, [Other(Call(first)), Other(Begin("")), Other(refusal),
                                             Other(Call(second)), Other(Begin(""))]);
            && MayReply(before, 1)
            && before.view.written == [Line(1, first), Line(2, second)]
            && React(before, Reply(1, Resolved(text))).view.settled == [Rejected("pi prompt failed"), Resolved(text)]
  {
    var refusal := Print(Response(1, Some("pi prompt failed")));
    var p1 := React(NEW_PEER, Other(Call(first)));
    var p2 := React(p1, Other(Begin("")));
    var p3 := React(p2, Other(refusal));
    var p4 := React(p3, Other(Call(second)));
    var p5 := React(p4, Other(Begin("")));
    var es := [Other(Call(first)), Other(Begin("")), Other(refusal), Other(Call(second)), Other(Begin(""))];
    assert p5.view.written == [Line(1, first), Line(2, second)];
    assert es[1..][1..][1..][1..][1..] == [];
    assert RunPeer(NEW_PEER, es) == RunPeer(p1, es[1..]) == RunPeer(p2, es[1..][1..])
        == RunPeer(p3, es[1..][1..][1..]) == RunPeer(p4, es[1..][1..][1..][1..]) == p5;
  }

  /** One attempt to have a message answered: by which client, as which of its prompts, and how it settled; or
      without a prompt, because no client could be started. */
  datatype Exchange =
    | Exchange(peer: nat, tag: nat, message: string, outcome: Outcome)
    | NoClient(message: string, outcome: Outcome)

  /** A prompt that resolved did so with the reply its own process gave to that very prompt. */
  ghost predicate Genuine(x: Exchange, peers: seq<Peer>) {
    x.outcome.Resolved? ==> x.Exchange? && x.peer < |peers| && Answered(peers[x.peer], x.tag, x.message, x.outcome.text)
  }

  function LowerChar(c: char): char {
    if 'A' <= c <= 'Z' then c - 'A' + 'a' else c
  }

  function Lower(s: string): string {
    seq(|s|, i requires 0 <= i < |s| => LowerChar(s[i]))
  }

  /** Any error whose message mentions a time-out counts as one. */
  predicate IsTimeout(error: string) {
    Contains(Lower(error), "timed out")
  }

  lemma {:induction false} TimeoutsAreRecognised(title: string, detail: string)
    ensures IsTimeout(TimeoutText(title, detail))
  {
    var t := Lower(TimeoutText(title, detail));
    var i := |title| + |": translation prompt "|;
    assert t[i..i + |"timed out"|] == "timed out";
    FoundBy(t, "timed out", 0, i);
  }

  /** The words "timed out" stand at position `i`, each letter in either case. */
  predicate SaysTimedOut(error: string, i: int) {
    && 0 <= i && i + 9 <= |error|
    && (error[i] == 't' || error[i] == 'T') && (error[i + 1] == 'i' || error[i + 1] == 'I')
    && (error[i + 2] == 'm' || error[i + 2] == 'M') && (error[i + 3] == 'e' || error[i + 3] == 'E')
    && (error[i + 4] == 'd' || error[i + 4] == 'D') && error[i + 5] == ' '
    && (error[i + 6] == 'o' || error[i + 6] == 'O') && (error[i + 7] == 'u' || error[i + 7] == 'U')
    && (error[i + 8] == 't' || error[i + 8] == 'T')
  }

  predicate MentionsTimeout(error: string) {
    exists i | 0 <= i < |error| :: SaysTimedOut(error, i)
  }

  lemma {:induction false} OccursIffSays(error: string, i: int)
    ensures OccursAt(Lower(error), "timed out", i) <==> SaysTimedOut(error, i)
  {
    if 0 <= i && i + 9 <= |error| {
      var w := Lower(error)[i..i + 9];
      assert w == [w[0], w[1], w[2], w[3], w[4], w[5], w[6], w[7], w[8]];
      assert "timed out" == ['t', 'i', 'm', 'e', 'd', ' ', 'o', 'u', 't'];
      assert forall k | 0 <= k < 9 :: w[k] == LowerChar(error[i + k]);
    }
  }

  /** An error counts as a time-out exactly when it says so in these words. */
  lemma {:induction false} IsTimeoutIffMentioned(error: string)
    ensures IsTimeout(error) <==> MentionsTimeout(error)
  {
    IndexOfFinds(Lower(error), "timed out", 0);
    forall i: int
      ensures OccursAt(Lower(error), "timed out", i) <==> SaysTimedOut(error, i)
    {
      OccursIffSays(error, i);
    }
  }

  function MissingText(key: string): string {
    "missing translation for " + key
  }

  predicate HasTranslation(parsed: map<string, string>, key: string) {
    key in parsed && !IsBlank(parsed[key])
  }

  function KeysOf(items: seq<Item>): set<string> {
    set i | 0 <= i < |items| :: items[i].key
  }

  /** The most attempts, hence the most prompts, that a batch of `n` items can take. */
  function MaxPrompts(n: nat): nat {
    if n == 0 then TRANSLATE_MAX_ATTEMPTS else 4 * n - 2
  }

  class Session {
    /** The prompt text for a batch, and the string-valued members of a JSON object text. */
    const render: seq<Item> -> string
    const parse: string -> Option<map<string, string>>
    var peers: seq<Peer>
    var current: Option<nat>
    var log: seq<Exchange>

    constructor (render: seq<Item> -> string, parse: string -> Option<map<string, string>>)
      ensures Valid() && Ready() && log == []
      ensures this.render == render && this.parse == parse
    {
      this.render, this.parse := render, parse;
      peers, current, log := [], None, [];
    }

    ghost predicate Valid()
      reads this
    {
      && (current.Some? ==> current.value < |peers|)
      && (forall i | 0 <= i < |peers| :: PeerOk(peers[i]))
      && (forall i | 0 <= i < |peers| && current != Some(i) :: Retired(peers[i]))
      && (forall j | 0 <= j < |log| :: Genuine(log[j], peers))
    }

    /** The client in use, if any, is idle and is owed no reply. */
    ghost predicate Ready()
      requires Valid()
      reads this
    {
      current.Some? ==> InStep(peers[current.value])
    }

    /** Something happens to one of the clients, in use or abandoned. */
    method Happens(i: nat, s: Stimulus)
      requires Valid() && i < |peers| && Enabled(peers[i], s)
      modifies this`peers
      ensures Valid() && peers == old(peers)[i := React(old(peers[i]), s)]
      ensures old(Ready()) ==> Ready()
    {
      ReactKeepsPeer(peers[i], s);
      peers := peers[i := React(peers[i], s)];
      forall j | 0 <= j < |log|
        ensures Genuine(log[j], peers)
      {
        assert old(Genuine(log[j], peers));
      }
    }

    /** Time passes while no prompt is outstanding. */
    method Idle()
      requires Valid() && Ready()
      modifies this`peers
      ensures Valid() && Ready() && |peers| == old(|peers|)
    {
      var events: nat := *;
      while events > 0
        invariant Valid() && Ready() && |peers| == old(|peers|)
      {
        var i: int := *;
        var s: Stimulus := *;
        if 0 <= i < |peers| && Enabled(peers[i], s) {
          Happens(i, s);
        }
        events := events - 1;
      }
    }

    /** The client in use has nothing started or queued. */
    ghost predicate AtRest()
      requires Valid()
      reads this
    {
      current.Some? ==> peers[current.value].view.active.None? && peers[current.value].view.waiting == []
    }

    /** `getClient`: the client in use, or if there is none a new one, and starting one may fail. */
    method GetClient() returns (ok: bool)
      requires Valid() && Ready()
      modifies this`peers, this`current
      ensures Valid() && Ready() && ok == current.Some?
      ensures old(current).Some? ==> current == old(current) && peers == old(peers)
      ensures old(current).None? && ok ==> current == Some(|old(peers)|) && |peers| == |old(peers)| + 1
      ensures !ok ==> peers == old(peers)
    {
      ok := true;
      if current.None? {
        ok := *;
        if ok {
          ghost var before := peers;
          peers := peers + [NEW_PEER];
          current := Some(|peers| - 1);
          assert forall j | 0 <= j < |log| :: Genuine(log[j], before) ==> Genuine(log[j], peers);
          Idle();
        }
      }
    }

    /** `prompt`, awaited on the client in use: any number of things happen to any client until the
        call settles; failing all else its timer fires. */
    method Ask(message: string, title: string) returns (o: Outcome)
      requires Valid() && Ready() && current.Some?
      modifies this`peers, this`log
      ensures Valid() && AtRest() && (o.Resolved? ==> Ready())
      ensures |log| == |old(log)| + 1 && log[..|old(log)|] == old(log)
      ensures log[|old(log)|].Exchange? && Some(log[|old(log)|].peer) == old(current) == current
      ensures log[|old(log)|].message == message && log[|old(log)|].outcome == o
    {
      var c := current.value;
      var n := |peers[c].view.settled|;
      var stderr: string := *;
      StartPrompt(c, message, stderr);
      var tag := |peers[c].view.written|;
      Await(c, n, tag, message, title);
      o := peers[c].view.settled[n];
      log := log + [Exchange(c, tag, message, o)];
      assert forall j | 0 <= j < |log| - 1 :: log[j] == old(log)[j];
    }

    method Await(c: nat, n: nat, tag: nat, message: string, title: string)
      requires Valid() && current == Some(c) && Asking(peers[c], n, tag, message)
      modifies this`peers
      ensures Valid() && Asking(peers[c], n, tag, message) && peers[c].view.active.None?
    {
      var events: int := *;
      while events > 0 && peers[c].view.active.Some?
        invariant Valid() && Asking(peers[c], n, tag, message)
      {
        var i: int := *;
        var s: Stimulus := *;
        if 0 <= i < |peers| && Enabled(peers[i], s) {
          if i == c {
            ReactKeepsAsking(peers[c], s, n, tag, message);
          }
          Happens(i, s);
        }
        events := events - 1;
      }
      if peers[c].view.active.Some? {
        var detail: string := *;
        ReactKeepsAsking(peers[c], Other(Expired(n, title, detail)), n, tag, message);
        Happens(c, Other(Expired(n, title, detail)));
      }
    }

    method StartPrompt(c: nat, message: string, stderr: string)
      requires Valid() && Ready() && current == Some(c)
      modifies this`peers
      ensures Valid() && |peers| == old(|peers|)
      ensures Asking(peers[c], old(|peers[c].view.settled|), |peers[c].view.written|, message)
    {
      var v := peers[c].view;
      var v' := Step(Step(v, Call(message)), Begin(stderr));
      peers := peers[c := peers[c].(view := v')];
      forall j | 0 <= j < |log|
        ensures Genuine(log[j], peers)
      {
        assert old(Genuine(log[j], peers));
      }
    }

    /** `resetClient`: the client in use is closed and forgotten, whatever state it is in. */
    method Reset()
      requires Valid() && AtRest()
      modifies this`peers, this`current
      ensures Valid() && Ready() && current.None? && |peers| == |old(peers)|
      ensures old(current).Some? ==> peers[old(current).value].view.closed
    {
      if current.Some? {
        var c := current.value;
        peers := peers[c := peers[c].(view := Step(peers[c].view, Event.Close))];
        current := None;
        forall j | 0 <= j < |log|
          ensures Genuine(log[j], peers)
        {
          assert old(Genuine(log[j], peers));
        }
        Idle();
      }
    }

    /** A reply text that translates every key of a batch. */
    predicate Usable(items: seq<Item>, text: string) {
      && parse(text).Some?
      && forall i | 0 <= i < |items| :: HasTranslation(parse(text).value, items[i].key)
    }

    /** The exchange asked for a batch holding `key`, and its reply, which translates the whole batch, translates
        `key` as `value`. */
    ghost predicate Supplies(x: Exchange, asked: seq<Item>, key: string, value: string) {
      && x.message == render(asked)
      && key in KeysOf(asked)
      && x.outcome.Resolved?
      && Usable(asked, x.outcome.text)
      && key in parse(x.outcome.text).value
      && parse(x.outcome.text).value[key] == value
    }

    /** Some exchange since `from` asked for `key` and was answered with `value`. */
    ghost predicate Sourced(key: string, value: string, from: nat)
      reads this`log
    {
      SourcedIn(log, key, value, from)
    }

    ghost predicate SourcedIn(xs: seq<Exchange>, key: string, value: string, from: nat) {
      exists j, asked | from <= j < |xs| :: Supplies(xs[j], asked, key, value)
    }

    /** Exactly the batch's keys are translated, none of them blank, each by a prompt that asked for it. */
    ghost predicate Translates(items: seq<Item>, translated: map<string, string>, from: nat)
      reads this`log
    {
      TranslatesIn(log, items, translated, from)
    }

    ghost predicate TranslatesIn(xs: seq<Exchange>, items: seq<Item>, translated: map<string, string>, from: nat) {
      && translated.Keys == KeysOf(items)
      && (forall k | k in translated :: !IsBlank(translated[k]) && SourcedIn(xs, k, translated[k], from))
    }

    /** The attempt to have `asked` translated came to nothing, with this error: no client, a prompt that was
        rejected, or a reply that is not usable. */
    ghost predicate Fails(x: Exchange, asked: seq<Item>, error: string) {
      && x.message == render(asked)
      && match x.outcome
         case Rejected(reason) => error == reason
         case Resolved(text) => !Usable(asked, text) && (parse(text).Some? ==> NamesMissingKey(asked, text, error))
    }

    /** The error names the first key of the batch that the reply does not translate. */
    ghost predicate NamesMissingKey(asked: seq<Item>, text: string, error: string)
      requires parse(text).Some?
    {
      exists i | 0 <= i < |asked| ::
        && !HasTranslation(parse(text).value, asked[i].key)
        && (forall j | 0 <= j < i :: HasTranslation(parse(text).value, asked[j].key))
        && error == MissingText(asked[i].key)
    }

    ghost predicate FailsSoftly(x: Exchange, asked: seq<Item>) {
      exists error :: Fails(x, asked, error) && !IsTimeout(error)
    }

    /** The last attempts since `from` were spent on `part`: all that are allowed, or one that timed out on
        what cannot be split. */
    ghost predicate Spent(part: seq<Item>, error: string, from: nat)
      reads this`log
    {
      && |log| > from && Fails(log[|log| - 1], part, error)
      && if IsTimeout(error) then |part| <= 1
         else |log| >= from + TRANSLATE_MAX_ATTEMPTS && FailsSoftly(log[|log| - 2], part)
    }

    /** Some contiguous part of the items, not an empty one, was given up with this error. */
    ghost predicate GaveUp(items: seq<Item>, error: string, from: nat)
      reads this`log
    {
      exists lo: nat, hi: nat | lo <= hi <= |items| && (items != [] ==> lo < hi) :: Spent(items[lo..hi], error, from)
    }

    /** The attempts at the whole batch came to nothing: the first, and the second unless the first timed out. */
    ghost predicate WholeFailed(items: seq<Item>, from: nat)
      reads this`log
    {
      && |log| > from
      && exists error :: Fails(log[from], items, error) && (IsTimeout(error) || FailsAt(items, from + 1))
    }

    ghost predicate FailsAt(items: seq<Item>, j: nat)
      reads this`log
    {
      j < |log| && exists error :: Fails(log[j], items, error)
    }

    ghost predicate TimesOut(x: Exchange, asked: seq<Item>) {
      exists error :: Fails(x, asked, error) && MentionsTimeout(error)
    }

    ghost predicate FailsOtherwise(x: Exchange, asked: seq<Item>) {
      exists error :: Fails(x, asked, error) && !MentionsTimeout(error)
    }

    /** What is asked for since `from`, and in which order: the whole batch; after a time-out of two or more items
        their halves; after any other failure the whole batch once more. */
    ghost predicate Proceeds(items: seq<Item>, from: nat, ok: bool)
      reads this`log
    {
      && |log| > from && log[from].message == render(items)
      && (|log| == from + 1 ==> ok || (|items| <= 1 && TimesOut(log[from], items)))
      && (|log| > from + 1 ==>
            || (TimesOut(log[from], items) && Halved(items, from + 1, ok))
            || (FailsOtherwise(log[from], items) && AsksAgain(items, from + 1, ok)))
    }

    ghost predicate AsksAgain(items: seq<Item>, at: nat, ok: bool)
      reads this`log
    {
      && |log| > at && log[at].message == render(items)
      && (|log| == at + 1 ==> ok || |items| <= 1 || FailsOtherwise(log[at], items))
      && (|log| > at + 1 ==> TimesOut(log[at], items) && Halved(items, at + 1, ok))
    }

    /** The first half, rounded up, is asked for next, and the second half too unless the first was given up. */
    ghost predicate Halved(items: seq<Item>, at: nat, ok: bool)
      reads this`log
    {
      && |items| > 1
      && |log| > at && log[at].message == render(items[..(|items| + 1) / 2])
      && (ok ==> exists j | at < j < |log| :: log[j].message == render(items[(|items| + 1) / 2..]))
    }

    lemma {:induction false} SoftIsOtherwise(x: Exchange, asked: seq<Item>)
      requires FailsSoftly(x, asked)
      ensures FailsOtherwise(x, asked)
    {
      var error :| Fails(x, asked, error) && !IsTimeout(error);
      IsTimeoutIffMentioned(error);
    }

    lemma {:induction false} AnsweredProceeds(items: seq<Item>, from: nat, attempt: nat)
      requires attempt < 2 && |log| == from + attempt + 1 && log[from + attempt].message == render(items)
      requires attempt > 0 ==> FailsSoftly(log[from], items)
      ensures Proceeds(items, from, true)
    {
      if attempt > 0 {
        SoftIsOtherwise(log[from], items);
      }
    }

    lemma {:induction false} HalvedProceeds(items: seq<Item>, error: string, from: nat, attempt: nat, ok: bool)
      requires attempt < 2 && |log| > from + attempt
      requires Fails(log[from + attempt], items, error) && IsTimeout(error)
      requires attempt > 0 ==> FailsSoftly(log[from], items)
      requires Halved(items, from + attempt + 1, ok)
      ensures Proceeds(items, from, ok)
    {
      IsTimeoutIffMentioned(error);
      assert TimesOut(log[from + attempt], items);
      if attempt > 0 {
        SoftIsOtherwise(log[from], items);
        assert AsksAgain(items, from + 1, ok);
      }
    }

    method Collect(items: seq<Item>, text: string) returns (r: Result<map<string, string>>)
      ensures r.Ok? <==> Usable(items, text)
      ensures r.Ok? ==>
        && r.value.Keys == KeysOf(items)
        && (forall k | k in r.value :: !IsBlank(r.value[k]))
        && forall k | k in r.value :: k in parse(text).value && parse(text).value[k] == r.value[k]
      ensures r.Err? && parse(text).Some? ==> NamesMissingKey(items, text, r.error)
      ensures r.Err? && parse(text).Some? ==> exists i | 0 <= i < |items| ::
        && r.error == "missing translation for " + items[i].key
        && (items[i].key !in parse(text).value || IsBlank(parse(text).value[items[i].key]))
    {
      var parsed := parse(text);
      if parsed.None? {
        var error: string := *;
        return Err(error);
      }
      var translated: map<string, string> := map[];
      for i := 0 to |items|
        invariant translated.Keys == KeysOf(items[..i])
        invariant forall k | k in translated ::
          !IsBlank(translated[k]) && k in parsed.value && parsed.value[k] == translated[k]
        invariant forall j | 0 <= j < i :: HasTranslation(parsed.value, items[j].key)
      {
        var key := items[i].key;
        if key !in parsed.value || IsBlank(parsed.value[key]) {
          return Err(MissingText(key));
        }
        translated := translated[key := parsed.value[key]];
        assert KeysOf(items[..i + 1]) == KeysOf(items[..i]) + {key} by {
          assert items[..i + 1] == items[..i] + [items[i]];
          KeysOfConcat(items[..i], [items[i]]);
        }
      }
      assert items[..|items|] == items;
      r := Ok(translated);
    }

    /** One attempt: get a client, prompt it and check the answer. It fails only if no client could be started,
        the prompt was rejected, or the reply is not usable. */
    method Attempt(items: seq<Item>, title: string) returns (r: Result<map<string, string>>)
      requires Valid() && Ready()
      modifies this`peers, this`current, this`log
      ensures Valid() && AtRest() && (r.Ok? ==> Ready())
      ensures |log| == |old(log)| + 1 && log[..|old(log)|] == old(log)
      ensures log[|old(log)|].NoClient? ==> old(current).None?
      ensures log[|old(log)|].message == render(items)
      ensures r.Ok? ==> Translates(items, r.value, |old(log)|)
      ensures r.Err? ==> Fails(log[|old(log)|], items, r.error)
    {
      var ok := GetClient();
      if !ok {
        var error: string := *;
        log := log + [NoClient(render(items), Rejected(error))];
        assert forall j | 0 <= j < |old(log)| :: log[j] == old(log)[j];
        return Err(error);
      }
      var o := Ask(render(items), title);
      if o.Rejected? {
        return Err(o.reason);
      }
      r := Collect(items, o.text);
      if r.Ok? {
        var x := log[|old(log)|];
        assert forall k | k in r.value :: Supplies(x, items, k, r.value[k]);
      }
    }

    /** One attempt, and after a failure the client is reset. */
    method AttemptOrReset(items: seq<Item>, title: string, ghost from: nat, ghost attempt: nat, ghost softError: string)
      returns (r: Result<map<string, string>>)
      requires Valid() && Ready()
      requires attempt < TRANSLATE_MAX_ATTEMPTS && Tried(items, softError, from, attempt)
      modifies this`peers, this`current, this`log
      ensures Valid() && Ready() && (r.Err? ==> current.None?)
      ensures |log| == from + attempt + 1 && log[..from] == old(log[..from])
      ensures r.Ok? ==> Translates(items, r.value, from) && Proceeds(items, from, true)
      ensures r.Err? ==> Fails(log[from + attempt], items, r.error) && (attempt > 0 ==> FailsSoftly(log[from], items))
    {
      ghost var before := log;
      r := Attempt(items, title);
      StillTried(items, softError, from, attempt, before);
      if r.Ok? {
        TranslatesSince(items, r.value, |before|, from);
        AnsweredProceeds(items, from, attempt);
      } else {
        Reset();
      }
    }

    /** Terminates under any pattern of failures and late output, within 4n - 2 prompts. It returns
        normally only with a full translation, every value of which its own prompt asked for and its own
        process supplied. It fails only if the attempts at the whole batch failed and some part of it was given
        up. Either way it leaves no reply owed to the client in use. */
    method TranslateBatch(items: seq<Item>, title: string) returns (r: Result<map<string, string>>)
      requires Valid() && Ready()
      modifies this`peers, this`current, this`log
      ensures Valid() && Ready() && (r.Err? ==> current.None?)
      ensures |old(log)| <= |log| <= |old(log)| + MaxPrompts(|items|) && log[..|old(log)|] == old(log)
      ensures r.Ok? ==> Translates(items, r.value, |old(log)|)
      ensures r.Err? ==> GaveUp(items, r.error, |old(log)|) && WholeFailed(items, |old(log)|)
      ensures Proceeds(items, |old(log)|, r.Ok?)
      decreases |items|
    {
      var lastError := "translation failed";
      var attempt := 0;
      ghost var from := |log|;
      while attempt < TRANSLATE_MAX_ATTEMPTS
        invariant 0 <= attempt <= TRANSLATE_MAX_ATTEMPTS
        invariant Valid() && Ready() && (attempt > 0 ==> current.None?)
        invariant Tried(items, lastError, from, attempt) && log[..from] == old(log)
      {
        r := AttemptOrReset(items, title, from, attempt, lastError);
        if r.Ok? {
          return;
        }
        lastError := r.error;
        if IsTimeout(lastError) && |items| > 1 {
          r := SplitAfter(items, title, from, attempt, lastError);
          return;
        }
        if IsTimeout(lastError) {
          break;
        }
        if attempt + 1 < TRANSLATE_MAX_ATTEMPTS {
          Idle();
        }
        attempt := attempt + 1;
      }
      r := Err(lastError);
      WholeIsSpent(items, lastError, from);
    }

    /** The attempts made since `from`, if any, were at these items and failed otherwise than by timing out. */
    ghost predicate Tried(items: seq<Item>, error: string, from: nat, attempt: nat)
      reads this`log
    {
      && |log| == from + attempt
      && (attempt > 0 ==> Fails(log[from + attempt - 1], items, error) && !IsTimeout(error))
      && (attempt > 1 ==> FailsSoftly(log[from], items))
    }

    lemma {:induction false} StillTried(items: seq<Item>, error: string, from: nat, attempt: nat, before: seq<Exchange>)
      requires |before| == from + attempt && |log| == |before| + 1 && log[..|before|] == before && attempt < 2
      requires attempt > 0 ==> Fails(before[from], items, error) && !IsTimeout(error)
      ensures log[..from] == before[..from]
      ensures attempt > 0 ==> FailsSoftly(log[from], items)
    {
      assert attempt > 0 ==> log[from] == before[from];
    }

    /** The last attempt at the whole batch timed out, and it is split. */
    method SplitAfter(items: seq<Item>, title: string, ghost from: nat, ghost attempt: nat, ghost error: string)
      returns (r: Result<map<string, string>>)
      requires Valid() && Ready() && current.None? && |items| > 1
      requires attempt < TRANSLATE_MAX_ATTEMPTS && |log| == from + attempt + 1
      requires Fails(log[|log| - 1], items, error) && IsTimeout(error)
      requires attempt > 0 ==> FailsSoftly(log[from], items)
      modifies this`peers, this`current, this`log
      ensures Valid() && Ready() && (r.Err? ==> current.None?)
      ensures |old(log)| <= |log| <= from + MaxPrompts(|items|) && log[..|old(log)|] == old(log)
      ensures r.Ok? ==> Translates(items, r.value, from)
      ensures r.Err? ==> GaveUp(items, r.error, from) && WholeFailed(items, from)
      ensures Proceeds(items, from, r.Ok?)
      decreases |items|, 1
    {
      ghost var before := log;
      r := Split(items, title);
      StillFailed(items, error, from, attempt, before);
      HalvedProceeds(items, error, from, attempt, r.Ok?);
      if r.Ok? {
        TranslatesSince(items, r.value, |before|, from);
      } else {
        GaveUpSince(items, r.error, |before|, from);
        WholeFailedBefore(items, error, from, attempt, before);
      }
    }

    lemma {:induction false} WholeFailedBefore(items: seq<Item>, error: string, from: nat, attempt: nat,
                                               before: seq<Exchange>)
      requires attempt < TRANSLATE_MAX_ATTEMPTS && |before| == from + attempt + 1
      requires |before| <= |log| && log[..|before|] == before
      requires Fails(before[|before| - 1], items, error) && IsTimeout(error)
      requires attempt > 0 ==> FailsSoftly(before[from], items)
      ensures WholeFailed(items, from)
    {
      assert log[from] == before[from] && log[from + attempt] == before[from + attempt];
      assert FailsAt(items, from + attempt);
    }

    lemma {:induction false} StillFailed(items: seq<Item>, error: string, from: nat, attempt: nat,
                                         before: seq<Exchange>)
      requires |before| == from + attempt + 1 && |before| <= |log| && log[..|before|] == before
      requires Fails(before[from + attempt], items, error)
      requires attempt > 0 ==> FailsSoftly(before[from], items)
      ensures Fails(log[from + attempt], items, error)
      ensures attempt > 0 ==> FailsSoftly(log[from], items)
    {
      assert log[from] == before[from] && log[from + attempt] == before[from + attempt];
    }

    method Split(items: seq<Item>, title: string) returns (r: Result<map<string, string>>)
      requires Valid() && Ready() && current.None? && |items| > 1
      modifies this`peers, this`current, this`log
      ensures Valid() && Ready() && (r.Err? ==> current.None?)
      ensures |old(log)| <= |log| <= |old(log)| + 4 * |items| - 4 && log[..|old(log)|] == old(log)
      ensures r.Ok? ==> Translates(items, r.value, |old(log)|)
      ensures r.Err? ==> GaveUp(items, r.error, |old(log)|)
      ensures Halved(items, |old(log)|, r.Ok?)
      decreases |items|, 0
    {
      var midpoint := (|items| + 1) / 2;
      r := TranslateBatch(items[..midpoint], title + "a");
      if r.Err? {
        PartGaveUp(items, 0, midpoint, r.error, |old(log)|, |old(log)|);
        return;
      }
      var left := r.value;
      ghost var between := log;
      r := TranslateBatch(items[midpoint..], title + "b");
      assert log[..|old(log)|] == between[..|old(log)|];
      assert log[|old(log)|] == between[|old(log)|];
      assert log[|between|].message == render(items[midpoint..]);
      if r.Err? {
        assert items[midpoint..|items|] == items[midpoint..];
        PartGaveUp(items, midpoint, |items|, r.error, |between|, |old(log)|);
        return;
      }
      HalvesTranslate(items, midpoint, left, r.value, between, |old(log)|);
      r := Ok(left + r.value);
    }

    lemma {:induction false} HalvesTranslate(items: seq<Item>, midpoint: nat, left: map<string, string>,
                                             right: map<string, string>, between: seq<Exchange>, from: nat)
      requires midpoint <= |items| && from <= |between| <= |log| && log[..|between|] == between
      requires TranslatesIn(between, items[..midpoint], left, from)
      requires Translates(items[midpoint..], right, |between|)
      ensures Translates(items, left + right, from)
    {
      KeysOfConcat(items[..midpoint], items[midpoint..]);
      assert items[..midpoint] + items[midpoint..] == items;
      forall k | k in left + right
        ensures Sourced(k, (left + right)[k], from)
      {
        if k in right {
          assert Sourced(k, right[k], |between|);
        } else {
          var j, asked :| from <= j < |between| && Supplies(between[j], asked, k, left[k]);
          assert log[j] == log[..|between|][j];
        }
      }
    }

    lemma {:induction false} WholeIsSpent(items: seq<Item>, error: string, from: nat)
      requires Spent(items, error, from)
      requires |log| == from + 1 ==> IsTimeout(error)
      requires |log| <= from + 2
      requires |log| == from + 2 ==> FailsSoftly(log[from], items)
      ensures GaveUp(items, error, from) && WholeFailed(items, from)
      ensures Proceeds(items, from, false)
    {
      assert items[0..|items|] == items;
      IsTimeoutIffMentioned(error);
      if |log| == from + 2 {
        assert FailsAt(items, from + 1);
        SoftIsOtherwise(log[from], items);
      }
    }

    lemma {:induction false} GaveUpSince(items: seq<Item>, error: string, from: nat, earlier: nat)
      requires earlier <= from && GaveUp(items, error, from)
      ensures GaveUp(items, error, earlier)
    {
      var lo: nat, hi: nat :| lo <= hi <= |items| && (items != [] ==> lo < hi) && Spent(items[lo..hi], error, from);
      assert Spent(items[lo..hi], error, earlier);
    }

    /** What was given up of a part was given up of the whole. */
    lemma {:induction false} PartGaveUp(items: seq<Item>, a: nat, b: nat, error: string, from: nat, earlier: nat)
      requires a < b <= |items| && earlier <= from && GaveUp(items[a..b], error, from)
      ensures GaveUp(items, error, earlier)
    {
      GaveUpSince(items[a..b], error, from, earlier);
      var part := items[a..b];
      var lo: nat, hi: nat :| lo <= hi <= |part| && (part != [] ==> lo < hi) && Spent(part[lo..hi], error, earlier);
      SliceOfSlice(items, a, b, lo, hi);
    }

    lemma {:induction false} TranslatesSince(items: seq<Item>, translated: map<string, string>, from: nat, earlier: nat)
      requires earlier <= from && Translates(items, translated, from)
      ensures Translates(items, translated, earlier)
    {
    }
  }

  lemma {:induction false} SliceOfSlice(items: seq<Item>, a: nat, b: nat, lo: nat, hi: nat)
    requires a <= b <= |items| && lo <= hi <= b - a
    ensures items[a..b][lo..hi] == items[a + lo..a + hi]
  {
    forall k | 0 <= k < hi - lo
      ensures items[a..b][lo..hi][k] == items[a + lo..a + hi][k]
    {
      assert items[a..b][lo + k] == items[a + lo + k];
    }
  }

  lemma {:induction false} KeysOfConcat(a: seq<Item>, b: seq<Item>)
    ensures KeysOf(a + b) == KeysOf(a) + KeysOf(b)
  {
    forall k | k in KeysOf(a) + KeysOf(b)
      ensures k in KeysOf(a + b)
    {
      if k in KeysOf(a) {
        var i :| 0 <= i < |a| && a[i].key == k;
        assert (a + b)[i].key == k;
      } else {
        var i :| 0 <= i < |b| && b[i].key == k;
        assert (a + b)[|a| + i].key == k;
      }
    }
  }
}
