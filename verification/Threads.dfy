/** Reply threads: the depth-checking walk of a new comment's ancestors, concurrent with other posts
    and with cascading deletions. */
module Threads {
  import opened Basics

  const MAX_ANCESTORS: nat := 8
  const MAX_TEXT_BYTES: nat := 8192

  datatype Message = Message(image: int, replyTo: Option<nat>, text: string)

  type Table = map<nat, Message>

  /** The foreign key, on one image, to an older message. */
  ghost predicate Linked(t: Table) {
    forall id | id in t && t[id].replyTo.Some? ::
      var p := t[id].replyTo.value; p in t && p < id && t[p].image == t[id].image
  }

  /** The ancestors of a message, nearest first. */
  ghost function Ancestors(t: Table, id: nat): seq<nat>
    requires Linked(t) && id in t
    decreases id
  {
    if t[id].replyTo.None? then [] else [t[id].replyTo.value] + Ancestors(t, t[id].replyTo.value)
  }

  /** What a reply to id would have as its ancestors. */
  ghost function Line(t: Table, id: Option<nat>): seq<nat>
    requires Linked(t) && (id.Some? ==> id.value in t)
  {
    if id.None? then [] else [id.value] + Ancestors(t, id.value)
  }

  /** Every chain is short. */
  ghost predicate Bounded(t: Table) {
    Linked(t) && forall id | id in t :: |Ancestors(t, id)| <= MAX_ANCESTORS
  }

  /** Ancestors are older, on the same image, and all different. */
  lemma {:induction false} AncestorsDescend(t: Table, id: nat)
    requires Linked(t) && id in t
    ensures var a := Ancestors(t, id);
      && (forall i | 0 <= i < |a| :: a[i] < id && a[i] in t && t[a[i]].image == t[id].image)
      && (forall i, j | 0 <= i < j < |a| :: a[j] < a[i])
    decreases id
  {
    if t[id].replyTo.Some? {
      var p, a := t[id].replyTo.value, Ancestors(t, id);
      AncestorsDescend(t, p);
      assert a == [p] + Ancestors(t, p);
      assert forall i | 0 < i < |a| :: a[i] == Ancestors(t, p)[i - 1];
    }
  }

  // ----- Posts and deletions -----

  function Posted(t: Table, id: nat, m: Message): Table {
    t[id := m]
  }

  /** A deletion takes every reply to a deleted message with it. */
  ghost predicate Cascades(t: Table, gone: set<nat>) {
    gone <= t.Keys && forall id | id in t && t[id].replyTo.Some? && t[id].replyTo.value in gone :: id in gone
  }

  lemma {:induction false} AncestorsAfterPost(t: Table, id: nat, m: Message, x: nat)
    requires Linked(t) && Linked(Posted(t, id, m)) && id !in t && x in t
    ensures Ancestors(Posted(t, id, m), x) == Ancestors(t, x)
    decreases x
  {
    if t[x].replyTo.Some? { AncestorsAfterPost(t, id, m, t[x].replyTo.value); }
  }

  lemma {:induction false} AncestorsAfterDelete(t: Table, gone: set<nat>, x: nat)
    requires Linked(t) && Linked(t - gone) && x in t && x !in gone
    ensures Ancestors(t - gone, x) == Ancestors(t, x)
    decreases x
  {
    assert x in t - gone && (t - gone)[x] == t[x];
    if t[x].replyTo.Some? { AncestorsAfterDelete(t, gone, t[x].replyTo.value); }
  }

  lemma PostKeeps(t: Table, id: nat, m: Message)
    requires Bounded(t) && (forall x | x in t :: x < id)
    requires m.replyTo.Some? ==>
      m.replyTo.value in t && t[m.replyTo.value].image == m.image && |Line(t, m.replyTo)| <= MAX_ANCESTORS
    ensures Bounded(Posted(t, id, m)) && Ancestors(Posted(t, id, m), id) == Line(t, m.replyTo)
  {
    var after := Posted(t, id, m);
    assert Linked(after);
    forall x | x in t ensures Ancestors(after, x) == Ancestors(t, x) { AncestorsAfterPost(t, id, m, x); }
  }

  lemma DeleteKeeps(t: Table, gone: set<nat>)
    requires Bounded(t) && Cascades(t, gone)
    ensures Bounded(t - gone)
  {
    assert Linked(t - gone);
    forall x | x in t - gone ensures Ancestors(t - gone, x) == Ancestors(t, x) { AncestorsAfterDelete(t, gone, x); }
  }

  // ----- Any interleaving -----

  /** A comment being checked: the chain read so far, parent first, and the next ancestor to read.
      A comment that replies to nothing has read nothing. */
  datatype Walker = Walker(image: int, text: string, seen: seq<nat>, next: Option<nat>)

  function Parent(w: Walker): Option<nat> {
    if w.seen == [] then None else Some(w.seen[0])
  }

  datatype World = World(messages: Table, images: set<int>, nextId: nat, walkers: set<Walker>)

  /** Each step is one statement; rejected walks just stay where they are. */
  datatype Step =
    | Begin(image: int, text: string, replyTo: Option<nat>)
    | Advance(walker: Walker)
    | Insert(walker: Walker)
    | Delete(gone: set<nat>)
    | DeleteImage(image: int)

  function OnImage(t: Table, image: int): set<nat> {
    set id | id in t && t[id].image == image
  }

  ghost predicate Next(w: World, step: Step, w': World) {
    match step
    case Begin(image, text, replyTo) =>
      && (replyTo.Some? ==> replyTo.value in w.messages && w.messages[replyTo.value].image == image)
      && w' == w.(walkers := w.walkers +
           {if replyTo.None? then Walker(image, text, [], None)
            else Walker(image, text, [replyTo.value], w.messages[replyTo.value].replyTo)})
    case Advance(x) =>
      && x in w.walkers && x.next.Some? && |x.seen| < MAX_ANCESTORS
      && x.next.value in w.messages && w.messages[x.next.value].image == x.image
      && w' == w.(walkers := w.walkers
                  + {x.(seen := x.seen + [x.next.value], next := w.messages[x.next.value].replyTo)})
    case Insert(x) =>
      && x in w.walkers && x.next.None? && x.image in w.images
      && (Parent(x).Some? ==> Parent(x).value in w.messages)
      && w' == w.(messages := Posted(w.messages, w.nextId, Message(x.image, Parent(x), x.text)), nextId := w.nextId + 1)
    case Delete(gone) =>
      Cascades(w.messages, gone) && w' == w.(messages := w.messages - gone)
    case DeleteImage(image) =>
      w' == w.(images := w.images - {image}, messages := w.messages - OnImage(w.messages, image))
  }

  ghost predicate Run(worlds: seq<World>, steps: seq<Step>) {
    && |worlds| == |steps| + 1
    && forall i | 0 <= i < |steps| :: Next(worlds[i], steps[i], worlds[i + 1])
  }

  /** While its parent exists, what a walker has read and has still to read is the parent's chain. */
  ghost predicate Reading(t: Table, nextId: nat, x: Walker)
    requires Linked(t)
  {
    && |x.seen| <= MAX_ANCESTORS
    && (x.seen == [] ==> x.next.None?)
    && (x.seen != [] ==> x.seen[0] < nextId)
    && (x.seen != [] && x.seen[0] in t ==>
         && t[x.seen[0]].image == x.image
         && (x.next.Some? ==> x.next.value in t)
         && Line(t, Some(x.seen[0])) == x.seen + Line(t, x.next))
  }

  ghost predicate Inv(w: World) {
    && Bounded(w.messages)
    && (forall id | id in w.messages :: id < w.nextId && w.messages[id].image in w.images)
    && (forall x | x in w.walkers :: Reading(w.messages, w.nextId, x))
  }

  /** A table that keeps the chain of every message it keeps leaves walkers right. */
  lemma ReadingKept(t: Table, d: Table, n: nat, n': nat, x: Walker)
    requires Linked(t) && Linked(d) && n <= n' && Reading(t, n, x)
    requires forall id | id in d && id < n :: id in t && d[id] == t[id] && Ancestors(d, id) == Ancestors(t, id)
    ensures Reading(d, n', x)
  {
    if x.seen != [] && x.seen[0] in d {
      var p := x.seen[0];
      assert Line(d, Some(p)) == Line(t, Some(p));
      if x.next.Some? {
        var line := Line(t, Some(p));
        assert line == x.seen + Line(t, x.next);
        assert line[|x.seen|] == x.next.value;
        assert Ancestors(t, p)[|x.seen| - 1] == x.next.value;
        AncestorsDescend(d, p);
        assert x.next.value in d && x.next.value < n;
      }
    }
  }

  lemma InsertInv(w: World, x: Walker, w': World)
    requires Inv(w) && Next(w, Insert(x), w')
    ensures Inv(w')
  {
    var t, m := w.messages, Message(x.image, Parent(x), x.text);
    assert Reading(t, w.nextId, x);
    assert x.seen + [] == x.seen;
    PostKeeps(t, w.nextId, m);
    forall y | y in w'.walkers ensures Reading(w'.messages, w'.nextId, y) {
      forall id | id in w'.messages && id < w.nextId ensures id in t && Ancestors(w'.messages, id) == Ancestors(t, id) {
        AncestorsAfterPost(t, w.nextId, m, id);
      }
      ReadingKept(t, w'.messages, w.nextId, w'.nextId, y);
    }
  }

  lemma DeleteInv(w: World, gone: set<nat>, images: set<int>, w': World)
    requires Inv(w) && Cascades(w.messages, gone) && w' == w.(images := images, messages := w.messages - gone)
    requires forall id | id in w.messages && id !in gone :: w.messages[id].image in images
    ensures Inv(w')
  {
    DeleteKeeps(w.messages, gone);
    forall y | y in w'.walkers ensures Reading(w'.messages, w'.nextId, y) {
      forall id | id in w'.messages ensures Ancestors(w'.messages, id) == Ancestors(w.messages, id) {
        AncestorsAfterDelete(w.messages, gone, id);
      }
      ReadingKept(w.messages, w'.messages, w.nextId, w'.nextId, y);
    }
  }

  lemma AdvanceInv(w: World, x: Walker, w': World)
    requires Inv(w) && Next(w, Advance(x), w')
    ensures Inv(w')
  {
    var t, r := w.messages, x.next.value;
    var y := x.(seen := x.seen + [r], next := t[r].replyTo);
    assert Reading(t, w.nextId, x);
    assert Line(t, Some(r)) == [r] + Line(t, t[r].replyTo);
    assert x.seen + ([r] + Line(t, t[r].replyTo)) == y.seen + Line(t, y.next);
    assert Reading(t, w.nextId, y);
  }

  lemma StepInv(w: World, step: Step, w': World)
    requires Inv(w) && Next(w, step, w')
    ensures Inv(w')
  {
    match step
    case Begin(image, text, replyTo) =>
      if replyTo.Some? {
        var p := replyTo.value;
        assert Line(w.messages, Some(p)) == [p] + Line(w.messages, w.messages[p].replyTo);
      }
    case Advance(x) => AdvanceInv(w, x, w');
    case Insert(x) => InsertInv(w, x, w');
    case Delete(gone) => DeleteInv(w, gone, w.images, w');
    case DeleteImage(image) => DeleteInv(w, OnImage(w.messages, image), w'.images, w');
  }

  /** Starting from no comments, under any interleaving of walks, posts and cascading deletions,
      every chain is acyclic, on one image, and has at most 8 ancestors. */
  lemma {:induction false} ThreadsBounded(worlds: seq<World>, steps: seq<Step>, i: nat)
    requires Run(worlds, steps) && worlds[0].messages == map[] && worlds[0].walkers == {} && i < |worlds|
    ensures Inv(worlds[i])
  {
    if i > 0 {
      ThreadsBounded(worlds, steps, i - 1);
      StepInv(worlds[i - 1], steps[i - 1], worlds[i]);
    }
  }

  /** What that says of one message. */
  lemma ChainInWorld(worlds: seq<World>, steps: seq<Step>, i: nat, id: nat)
    requires Run(worlds, steps) && worlds[0].messages == map[] && worlds[0].walkers == {} && i < |worlds|
    requires id in worlds[i].messages
    ensures Linked(worlds[i].messages) && worlds[i].messages[id].image in worlds[i].images
    ensures var t := worlds[i].messages; var a := Ancestors(t, id);
      && |a| <= 8 && id !in a
      && (forall j, k | 0 <= j < k < |a| :: a[j] != a[k])
      && (forall j | 0 <= j < |a| :: a[j] in t && t[a[j]].image == t[id].image)
  {
    ThreadsBounded(worlds, steps, i);
    AncestorsDescend(worlds[i].messages, id);
  }

  /** Deleting an image takes its own messages and no others. */
  lemma ImageGone(w: World, image: int, w': World)
    requires Next(w, DeleteImage(image), w')
    ensures image !in w'.images
    ensures forall id :: id in w'.messages <==> id in w.messages && w.messages[id].image != image
    ensures forall id | id in w'.messages :: w'.messages[id] == w.messages[id]
  {
  }

  /** Steps that take the first world of a run to its last. */
  ghost predicate Leads(w: World, steps: seq<Step>, worlds: seq<World>, w': World) {
    Run(worlds, steps) && worlds[0] == w && worlds[|steps|] == w'
  }

  lemma LeadsOn(w: World, step: Step, mid: World, steps: seq<Step>, worlds: seq<World>, w': World)
    requires Next(w, step, mid) && Leads(mid, steps, worlds, w')
    ensures Leads(w, [step] + steps, [w] + worlds, w')
  {
    var all, ws := [step] + steps, [w] + worlds;
    forall i | 0 <= i < |all| ensures Next(ws[i], all[i], ws[i + 1]) {
      if i > 0 { assert Next(worlds[i - 1], steps[i - 1], worlds[i]); }
    }
  }

  /** A walk up a chain of at most 8 messages, left alone, comes to its end. */
  lemma {:induction false} WalkEnds(w: World, x: Walker) returns (steps: seq<Step>, worlds: seq<World>, y: Walker)
    requires Linked(w.messages) && x in w.walkers && x.seen != []
    requires x.next.Some? ==> x.next.value in w.messages && w.messages[x.next.value].image == x.image
    requires |x.seen| + |Line(w.messages, x.next)| <= MAX_ANCESTORS
    ensures worlds != [] && Leads(w, steps, worlds, w.(walkers := worlds[|worlds| - 1].walkers))
    ensures y in worlds[|worlds| - 1].walkers && y.next.None?
    ensures y.image == x.image && y.text == x.text && y.seen != [] && y.seen[0] == x.seen[0]
    decreases |Line(w.messages, x.next)|
  {
    if x.next.None? {
      steps, worlds, y := [], [w], x;
    } else {
      var r := x.next.value;
      var z := x.(seen := x.seen + [r], next := w.messages[r].replyTo);
      var mid := w.(walkers := w.walkers + {z});
      assert Line(w.messages, x.next) == [r] + Line(w.messages, w.messages[r].replyTo);
      assert Next(w, Advance(x), mid);
      var more, rest, end := WalkEnds(mid, z);
      LeadsOn(w, Advance(x), mid, more, rest, mid.(walkers := rest[|rest| - 1].walkers));
      steps, worlds, y := [Advance(x)] + more, [w] + rest, end;
    }
  }

  /** Every comment the handler accepts can be posted: on an image there is, in reply to nothing or to a
      message of the image whose chain with it has at most 8 messages. */
  lemma PostReached(w: World, image: int, text: string, replyTo: Option<nat>)
    returns (steps: seq<Step>, worlds: seq<World>)
    requires Linked(w.messages) && image in w.images
    requires replyTo.Some? ==> replyTo.value in w.messages && w.messages[replyTo.value].image == image
                               && |Line(w.messages, replyTo)| <= 8
    ensures worlds != [] && Run(worlds, steps) && worlds[0] == w
    ensures worlds[|worlds| - 1].messages == Posted(w.messages, w.nextId, Message(image, replyTo, text))
  {
    var x := if replyTo.None? then Walker(image, text, [], None)
      else Walker(image, text, [replyTo.value], w.messages[replyTo.value].replyTo);
    var mid := w.(walkers := w.walkers + {x});
    assert Next(w, Begin(image, text, replyTo), mid);
    if replyTo.None? {
      var end := mid.(messages := Posted(w.messages, w.nextId, Message(image, None, text)), nextId := w.nextId + 1);
      assert Next(mid, Insert(x), end);
      steps, worlds := [Begin(image, text, None), Insert(x)], [w, mid, end];
    } else {
      assert Line(w.messages, replyTo) == [replyTo.value] + Line(w.messages, x.next);
      var walk, reached, y := WalkEnds(mid, x);
      var last := reached[|reached| - 1];
      var end := last.(messages := Posted(w.messages, w.nextId, Message(image, replyTo, text)), nextId := w.nextId + 1);
      assert Next(last, Insert(y), end);
      LeadsOn(w, Begin(image, text, replyTo), mid, walk, reached, last);
      steps, worlds := [Begin(image, text, replyTo)] + walk + [Insert(y)], [w] + reached + [end];
      AppendRun(w, [Begin(image, text, replyTo)] + walk, [w] + reached, last, Insert(y), end);
    }
  }

  lemma AppendRun(w: World, steps: seq<Step>, worlds: seq<World>, last: World, step: Step, end: World)
    requires Leads(w, steps, worlds, last) && Next(last, step, end)
    ensures Leads(w, steps + [step], worlds + [end], end)
  {
    var all, ws := steps + [step], worlds + [end];
    forall i | 0 <= i < |all| ensures Next(ws[i], all[i], ws[i + 1]) {
      if i < |steps| { assert Next(worlds[i], steps[i], worlds[i + 1]); }
    }
  }

  // ----- The handler -----

  /** Trimming and control characters come from tables given as parameters. */
  datatype TextRules = TextRules(trim: string -> string, control: string -> bool)

  function ValidText(r: TextRules, raw: string): bool {
    var text := r.trim(raw);
    text != "" && ByteLen(text) <= MAX_TEXT_BYTES && !r.control(text)
  }

  class CommentTable {
    var messages: Table
    var images: set<int>
    var nextId: nat
    /** How many message rows have been asked for. */
    var queries: nat

    constructor (images: set<int>)
      ensures messages == map[] && this.images == images && Valid()
    {
      messages, nextId, queries := map[], 0, 0;
      this.images := images;
    }

    ghost predicate Valid()
      reads this
    {
      Bounded(messages) && forall id | id in messages :: id < nextId
    }

    /** One query for the image and parent of a message. */
    method ReadMessage(id: nat) returns (row: Option<(int, Option<nat>)>)
      modifies this`queries
      ensures queries == old(queries) + 1
      ensures row == if id in messages then Some((messages[id].image, messages[id].replyTo)) else None
    {
      queries := queries + 1;
      row := if id in messages then Some((messages[id].image, messages[id].replyTo)) else None;
    }

    /** The ancestor walk: accepts exactly a parent on this image whose chain with it has at most 8
        messages, with one query for each message of the chain up to the eighth. */
    method CheckThread(image: int, parent: nat) returns (ok: bool)
      requires Valid()
      modifies this`queries
      ensures var onImage := parent in messages && messages[parent].image == image;
        && (ok <==> onImage && |Line(messages, Some(parent))| <= 8)
        && queries == old(queries) + if onImage then Min(|Line(messages, Some(parent))|, 8) else 1
    {
      var row := ReadMessage(parent);
      if row.None? || row.value.0 != image { return false; }
      var reply := row.value.1;
      var depth := 1;
      while reply.Some?
        invariant reply.Some? ==> reply.value in messages && messages[reply.value].image == image
        invariant 1 <= depth <= MAX_ANCESTORS && queries == old(queries) + depth
        invariant |Line(messages, Some(parent))| == depth + |Line(messages, reply)|
        decreases MAX_ANCESTORS - depth
      {
        if depth >= MAX_ANCESTORS { return false; }
        row := ReadMessage(reply.value);
        if row.None? || row.value.0 != image { assert false; return false; }
        reply := row.value.1;
        depth := depth + 1;
      }
      return true;
    }

    /** addComment: the status, and the new message when it is 200. */
    method AddComment(rules: TextRules, image: int, raw: string, replyTo: Option<nat>) returns (status: int)
      requires Valid()
      modifies this
      ensures Valid() && images == old(images)
      ensures var text := rules.trim(raw);
        var spoken := text != "" && ByteLen(text) <= 8192 && !rules.control(text);
        var answers := replyTo.Some? ==> replyTo.value in old(messages) && old(messages)[replyTo.value].image == image
                                         && |Line(old(messages), replyTo)| <= 8;
        status == if !spoken || !answers then 422 else if image !in images then 404 else 200
      ensures queries <= old(queries) + 8 && (replyTo.None? ==> queries == old(queries))
      ensures messages == if status == 200
        then Posted(old(messages), old(nextId), Message(image, replyTo, rules.trim(raw))) else old(messages)
      ensures nextId == old(nextId) + if status == 200 then 1 else 0
    {
      if !ValidText(rules, raw) { return 422; }
      if replyTo.Some? {
        var ok := CheckThread(image, replyTo.value);
        if !ok { return 422; }
      }
      if image !in images { return 404; }
      PostKeeps(messages, nextId, Message(image, replyTo, rules.trim(raw)));
      messages := Posted(messages, nextId, Message(image, replyTo, rules.trim(raw)));
      nextId := nextId + 1;
      return 200;
    }
  }
}
