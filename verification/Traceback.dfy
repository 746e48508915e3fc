/**
 The bounded traceback renderer: an explicit stack walks an exception graph that may be cyclic, under limits on
 depth, exceptions, frames and output. It refines a recursive, cause-first renderer.
 */
module Traceback {
  import opened Wrappers

  const MAX_DEPTH: nat := 32
  const MAX_NODES: nat := 64
  const MAX_FRAMES_PER_EXCEPTION: nat := 32
  const MAX_TOTAL_FRAMES: nat := 128
  const MAX_OUTPUT: nat := 16_384
  const MAX_FILENAME: nat := 160
  const MAX_FUNCTION: nat := 120
  const MAX_CLASS: nat := 120
  const MAX_LINE_NUMBER: nat := 20

  const HEADER := "Traceback (most recent call last):\n"
  const CAUSE_TEXT := "\nThe above exception was the direct cause of the following exception:\n\n"
  const CONTEXT_TEXT := "\nDuring handling of the above exception, another exception occurred:\n\n"
  const OUTPUT_MARKER := "\n[traceback truncated: output limit]\n"

  /** File, function and line number as JSON-escaped text. */
  datatype Frame = Frame(file: string, routine: string, line: string)

  type Frames = seq<Frame>

  /** An exception object; a plain exception has no members, and no frames stands for no traceback. */
  datatype Exception = Exception(
    name: string,
    traceback: Frames,
    cause: Option<nat>,
    context: Option<nat>,
    suppressContext: bool,
    members: seq<nat>)

  /** Every reference leads to an object; cycles and sharing are allowed. */
  type Graph = nat -> Exception

  datatype ExcInfo = Raised(id: nat, traceback: Frames) | WithoutValue(name: Option<string>, traceback: Frames)

  /** `_safe_traceback_metadata` on text that is already escaped. */
  function Metadata(escaped: string, limit: nat, keepTail: bool): (r: string)
    requires limit >= 3
    ensures |r| <= limit && (|escaped| <= limit ==> r == escaped)
  {
    if |escaped| <= limit then escaped
    else if keepTail then "..." + escaped[|escaped| - (limit - 3)..]
    else escaped[..limit - 3] + "..."
  }

  function FrameText(frame: Frame): string {
    "  File \"" + Metadata(frame.file, MAX_FILENAME, true) + "\", line "
    + Metadata(frame.line, MAX_LINE_NUMBER, false) + ", in " + Metadata(frame.routine, MAX_FUNCTION, false) + "\n"
  }

  function ClassText(name: string): string {
    Metadata(name, MAX_CLASS, false)
  }

  function Joined(parts: seq<string>): string {
    if parts == [] then "" else Joined(parts[..|parts| - 1]) + parts[|parts| - 1]
  }

  function FrameTexts(frames: Frames): seq<string> {
    if frames == [] then [] else FrameTexts(frames[..|frames| - 1]) + [FrameText(frames[|frames| - 1])]
  }

  function Min(a: nat, b: nat): nat {
    if a <= b then a else b
  }

  // ---------------------------------------------------------------- bounded output

  datatype Marker = FrameLimit | DepthLimit | NodeLimit | Cycle

  function MarkerText(marker: Marker): string {
    match marker
    case FrameLimit => "[traceback truncated: frame limit]\n"
    case DepthLimit => "[traceback truncated: exception depth limit]\n"
    case NodeLimit => "[traceback truncated: exception node limit]\n"
    case Cycle => "[traceback cycle omitted]\n"
  }

  /** What survives of a text of any length. */
  function Clip(text: string): (r: string)
    ensures |r| <= MAX_OUTPUT && (|text| <= MAX_OUTPUT ==> r == text)
  {
    if |text| <= MAX_OUTPUT then text else text[..MAX_OUTPUT - |OUTPUT_MARKER|] + OUTPUT_MARKER
  }

  lemma JoinedTwo(a: string, b: string)
    ensures Joined([a, b]) == a + b
  {
    assert [a, b][..1] == [a] && [a][..0] == [];
    assert Joined([a]) == a;
  }

  lemma ClipPrefix(text: string, longer: string)
    requires text <= longer && |text| > MAX_OUTPUT
    ensures Clip(text) == Clip(longer)
  {
    var n := MAX_OUTPUT - |OUTPUT_MARKER|;
    assert text[..n] == longer[..n];
  }

  /** `_BoundedTracebackOutput`. */
  class BoundedOutput {
    var parts: seq<string>
    var length: nat
    var full: bool
    var markers: set<Marker>
    /** Everything ever appended. */
    ghost var raw: string

    ghost predicate Valid()
      reads this
    {
      Joined(parts) == Clip(raw) && length == |Clip(raw)| && (full <==> |raw| > MAX_OUTPUT)
    }

    constructor ()
      ensures Valid() && raw == "" && markers == {}
    {
      parts, length, full, markers, raw := [], 0, false, {}, "";
    }

    method Append(text: string)
      requires Valid()
      modifies this
      ensures Valid() && raw == old(raw) + text && markers == old(markers)
    {
      raw := raw + text;
      if full {
        ClipPrefix(old(raw), raw);
        return;
      }
      if length + |text| <= MAX_OUTPUT {
        assert (parts + [text])[..|parts|] == parts;
        parts := parts + [text];
        length := length + |text|;
        return;
      }
      var prefix := (Joined(parts) + text)[..MAX_OUTPUT - |OUTPUT_MARKER|];
      parts := [prefix, OUTPUT_MARKER];
      JoinedTwo(prefix, OUTPUT_MARKER);
      length := MAX_OUTPUT;
      full := true;
    }

    method Mark(marker: Marker)
      requires Valid()
      modifies this
      ensures Valid() && markers == old(markers) + {marker}
      ensures raw == if marker in old(markers) then old(raw) else old(raw) + MarkerText(marker)
    {
      if marker in markers { return; }
      markers := markers + {marker};
      Append(MarkerText(marker));
    }

    method Render() returns (text: string)
      requires Valid()
      ensures text == Clip(raw)
    {
      text := Joined(parts);
    }
  }

  /** `_format_traceback_frames`. */
  method FormatFrames(traceback: Frames, maxFrames: nat) returns (rendered: seq<string>, count: nat, truncated: bool)
    ensures rendered == FrameTexts(traceback[..Min(|traceback|, maxFrames)])
    ensures count == Min(|traceback|, maxFrames) && (truncated <==> |traceback| > maxFrames)
  {
    rendered := [];
    var current: nat := 0;
    while current < |traceback| && |rendered| < maxFrames
      invariant current == |rendered| <= Min(|traceback|, maxFrames)
      invariant rendered == FrameTexts(traceback[..current])
    {
      assert traceback[..current + 1][..current] == traceback[..current];
      rendered := rendered + [FrameText(traceback[current])];
      current := current + 1;
    }
    return rendered, |rendered|, current < |traceback|;
  }

  // ---------------------------------------------------------------- recursive renderer with limits

  /** What has been written, which markers it contains, the exceptions entered in order, and the frames written. */
  datatype Progress = Progress(raw: string, markers: set<Marker>, seen: seq<nat>, frames: nat)

  predicate Distinct(ids: seq<nat>) {
    forall i, j | 0 <= i < j < |ids| :: ids[i] != ids[j]
  }

  predicate WithinBounds(p: Progress) {
    Distinct(p.seen) && |p.seen| <= MAX_NODES && p.frames <= MAX_TOTAL_FRAMES
  }

  predicate Extends(p: Progress, r: Progress) {
    p.raw <= r.raw && p.markers <= r.markers && p.seen <= r.seen && p.frames <= r.frames
  }

  function Say(p: Progress, text: string): (r: Progress)
    ensures Extends(p, r)
  {
    p.(raw := p.raw + text)
  }

  function Marked(p: Progress, marker: Marker): (r: Progress)
    ensures Extends(p, r)
  {
    if marker in p.markers then p else p.(raw := p.raw + MarkerText(marker), markers := p.markers + {marker})
  }

  function Framed(p: Progress, traceback: Frames): (r: Progress)
    requires WithinBounds(p)
    ensures WithinBounds(r) && Extends(p, r) && r.seen == p.seen
  {
    if traceback == [] then p
    else
      var available := Min(MAX_FRAMES_PER_EXCEPTION, MAX_TOTAL_FRAMES - p.frames);
      var shown := Min(|traceback|, available);
      var written := Say(Say(p, HEADER), Joined(FrameTexts(traceback[..shown]))).(frames := p.frames + shown);
      if |traceback| > available then Marked(written, FrameLimit) else written
  }

  /** The exception that is rendered first, and the sentence that follows it. */
  function Earlier(e: Exception): Option<(nat, string)> {
    if e.cause.Some? then Some((e.cause.value, CAUSE_TEXT))
    else if e.context.Some? && !e.suppressContext then Some((e.context.value, CONTEXT_TEXT))
    else None
  }

  function Visit(g: Graph, id: nat, traceback: Frames, depth: nat, p: Progress): (r: Progress)
    requires WithinBounds(p)
    ensures WithinBounds(r) && Extends(p, r)
    decreases MAX_NODES - |p.seen|, 1, 0
  {
    if depth > MAX_DEPTH then Marked(p, DepthLimit)
    else if id in p.seen then Marked(p, Cycle)
    else if |p.seen| >= MAX_NODES then Marked(p, NodeLimit)
    else Body(g, id, traceback, depth, Chained(g, id, depth, p))
  }

  /** Enters an exception and renders what came before it. */
  function Chained(g: Graph, id: nat, depth: nat, p: Progress): (r: Progress)
    requires WithinBounds(p) && id !in p.seen && |p.seen| < MAX_NODES
    ensures WithinBounds(r) && Extends(p, r) && |p.seen| < |r.seen|
    decreases MAX_NODES - |p.seen|, 0, 0
  {
    var entered := p.(seen := p.seen + [id]);
    match Earlier(g(id))
    case None => entered
    case Some((first, sentence)) => Say(Visit(g, first, g(first).traceback, depth + 1, entered), sentence)
  }

  function Body(g: Graph, id: nat, traceback: Frames, depth: nat, p: Progress): (r: Progress)
    requires WithinBounds(p)
    ensures WithinBounds(r) && Extends(p, r)
    decreases MAX_NODES - |p.seen|, 3, 0
  {
    var named := Named(g, id, traceback, p);
    VisitAll(g, Admitted(g, id, named), depth + 1, named)
  }

  /** Frames and class name, and for a group the note that not every member fits. */
  function Named(g: Graph, id: nat, traceback: Frames, p: Progress): (r: Progress)
    requires WithinBounds(p)
    ensures WithinBounds(r) && Extends(p, r) && r.seen == p.seen
  {
    var named := Say(Framed(p, traceback), ClassText(g(id).name));
    if |g(id).members| > MAX_NODES - |p.seen| then Marked(Say(named, "\n"), NodeLimit) else named
  }

  function Admitted(g: Graph, id: nat, p: Progress): seq<nat>
    requires WithinBounds(p)
  {
    g(id).members[..Min(|g(id).members|, MAX_NODES - |p.seen|)]
  }

  function VisitAll(g: Graph, ids: seq<nat>, depth: nat, p: Progress): (r: Progress)
    requires WithinBounds(p)
    ensures WithinBounds(r) && Extends(p, r)
    decreases MAX_NODES - |p.seen|, 2, |ids|
  {
    if ids == [] then p
    else VisitAll(g, ids[1..], depth, Visit(g, ids[0], g(ids[0]).traceback, depth, Say(p, "\n")))
  }

  const BLANK := Progress("", {}, [], 0)

  function Rendered(g: Graph, info: ExcInfo): Progress {
    match info
    case Raised(id, traceback) => Visit(g, id, traceback, 0, BLANK)
    case WithoutValue(name, traceback) =>
      Say(Framed(BLANK, traceback), ClassText(if name.Some? then name.value else "Exception"))
  }

  // ---------------------------------------------------------------- the explicit stack

  datatype Task =
    | Text(text: string)
    | Enter(id: nat, traceback: Frames, depth: nat)
    | Finish(id: nat, traceback: Frames, depth: nat)

  function Perform(g: Graph, task: Task, p: Progress): (r: Progress)
    requires WithinBounds(p)
    ensures WithinBounds(r) && Extends(p, r)
  {
    match task
    case Text(text) => Say(p, text)
    case Enter(id, traceback, depth) => Visit(g, id, traceback, depth, p)
    case Finish(id, traceback, depth) => Body(g, id, traceback, depth, p)
  }

  /** The top of the stack is its last element. */
  function PerformAll(g: Graph, stack: seq<Task>, p: Progress): (r: Progress)
    requires WithinBounds(p)
    ensures WithinBounds(r) && Extends(p, r)
  {
    if stack == [] then p else PerformAll(g, stack[..|stack| - 1], Perform(g, stack[|stack| - 1], p))
  }

  function Finishing(stack: seq<Task>): nat {
    if stack == [] then 0
    else Finishing(stack[..|stack| - 1]) + if stack[|stack| - 1].Finish? then 1 else 0
  }

  function MemberTasks(g: Graph, ids: seq<nat>, depth: nat): seq<Task> {
    if ids == [] then []
    else MemberTasks(g, ids[1..], depth) + [Enter(ids[0], g(ids[0]).traceback, depth), Text("\n")]
  }

  lemma Push(g: Graph, rest: seq<Task>, task: Task, p: Progress)
    requires WithinBounds(p)
    ensures PerformAll(g, rest + [task], p) == PerformAll(g, rest, Perform(g, task, p))
    ensures Finishing(rest + [task]) == Finishing(rest) + if task.Finish? then 1 else 0
  {
    assert (rest + [task])[..|rest|] == rest;
  }

  lemma {:induction false} PushMembers(g: Graph, rest: seq<Task>, ids: seq<nat>, depth: nat, p: Progress)
    requires WithinBounds(p)
    ensures PerformAll(g, rest + MemberTasks(g, ids, depth), p) == PerformAll(g, rest, VisitAll(g, ids, depth, p))
    ensures Finishing(rest + MemberTasks(g, ids, depth)) == Finishing(rest)
    decreases |ids|
  {
    if ids == [] {
      assert rest + MemberTasks(g, ids, depth) == rest;
    } else {
      var others := rest + MemberTasks(g, ids[1..], depth);
      var enter := Enter(ids[0], g(ids[0]).traceback, depth);
      assert rest + MemberTasks(g, ids, depth) == (others + [enter]) + [Text("\n")];
      Push(g, others + [enter], Text("\n"), p);
      Push(g, others, enter, Say(p, "\n"));
      PushMembers(g, rest, ids[1..], depth, Perform(g, enter, Say(p, "\n")));
    }
  }

  lemma SayMore(p: Progress, lines: seq<string>, i: nat)
    requires i < |lines|
    ensures Say(Say(p, Joined(lines[..i])), lines[i]) == Say(p, Joined(lines[..i + 1]))
  {
    assert lines[..i + 1][..i] == lines[..i];
    assert (p.raw + Joined(lines[..i])) + lines[i] == p.raw + (Joined(lines[..i]) + lines[i]);
  }

  class Renderer {
    const output: BoundedOutput
    var seen: set<nat>
    var nodeCount: nat
    var framesRendered: nat
    ghost var order: seq<nat>

    constructor ()
      ensures Valid() && Reached() == BLANK && fresh(output)
    {
      output := new BoundedOutput();
      seen, nodeCount, framesRendered, order := {}, 0, 0, [];
    }

    ghost function Reached(): Progress
      reads this, output
    {
      Progress(output.raw, output.markers, order, framesRendered)
    }

    ghost predicate Valid()
      reads this, output
    {
      && output.Valid() && WithinBounds(Reached())
      && nodeCount == |order| && forall id :: id in seen <==> id in order
    }

    method Write(text: string)
      requires Valid()
      modifies output
      ensures Valid() && Reached() == Say(old(Reached()), text)
    {
      output.Append(text);
    }

    method Mark(marker: Marker)
      requires Valid()
      modifies output
      ensures Valid() && Reached() == Marked(old(Reached()), marker)
    {
      output.Mark(marker);
    }

    method WriteLines(lines: seq<string>)
      requires Valid()
      modifies output
      ensures Valid() && Reached() == Say(old(Reached()), Joined(lines))
    {
      for i := 0 to |lines|
        invariant Valid() && Reached() == Say(old(Reached()), Joined(lines[..i]))
      {
        SayMore(old(Reached()), lines, i);
        Write(lines[i]);
      }
      assert lines[..|lines|] == lines;
    }

    method WriteFrames(traceback: Frames)
      requires Valid()
      modifies this`framesRendered, output
      ensures Valid() && Reached() == Framed(old(Reached()), traceback)
    {
      if traceback == [] { return; }
      Write(HEADER);
      var available := Min(MAX_FRAMES_PER_EXCEPTION, MAX_TOTAL_FRAMES - framesRendered);
      var frames, count, truncated := FormatFrames(traceback, available);
      framesRendered := framesRendered + count;
      WriteLines(frames);
      if truncated {
        Mark(FrameLimit);
      }
    }

    /** The tasks that finish an exception are pushed below the ones that come before it. */
    method Begin(g: Graph, id: nat, traceback: Frames, depth: nat, stack: seq<Task>) returns (next: seq<Task>)
      requires Valid()
      modifies this, output
      ensures Valid()
      ensures PerformAll(g, next, Reached()) == PerformAll(g, stack, Visit(g, id, traceback, depth, old(Reached())))
      ensures |order| > old(|order|) || (|order| == old(|order|) && next == stack)
    {
      if depth > MAX_DEPTH {
        Mark(DepthLimit);
        return stack;
      }
      if id in seen {
        Mark(Cycle);
        return stack;
      }
      if nodeCount >= MAX_NODES {
        Mark(NodeLimit);
        return stack;
      }
      next := Start(g, id, traceback, depth, stack);
    }

    method MarkSeen(id: nat)
      requires Valid() && id !in seen && nodeCount < MAX_NODES
      modifies this`seen, this`nodeCount, this`order
      ensures Valid() && Reached() == old(Reached()).(seen := old(order) + [id])
    {
      seen, nodeCount, order := seen + {id}, nodeCount + 1, order + [id];
    }

    method Start(g: Graph, id: nat, traceback: Frames, depth: nat, stack: seq<Task>) returns (next: seq<Task>)
      requires Valid() && id !in seen && nodeCount < MAX_NODES
      modifies this`seen, this`nodeCount, this`order
      ensures Valid() && |order| > old(|order|)
      ensures PerformAll(g, next, Reached())
           == PerformAll(g, stack, Body(g, id, traceback, depth, Chained(g, id, depth, old(Reached()))))
    {
      ghost var start := Reached();
      MarkSeen(id);
      var finish := Finish(id, traceback, depth);
      next := stack + [finish];
      Push(g, stack, finish, Chained(g, id, depth, start));
      if g(id).cause.Some? {
        next := PushEarlier(g, next, g(id).cause.value, CAUSE_TEXT, depth);
      } else if g(id).context.Some? && !g(id).suppressContext {
        next := PushEarlier(g, next, g(id).context.value, CONTEXT_TEXT, depth);
      }
    }

    method PushEarlier(g: Graph, stack: seq<Task>, id: nat, sentence: string, depth: nat) returns (next: seq<Task>)
      requires Valid()
      ensures var earlier := Visit(g, id, g(id).traceback, depth + 1, Reached());
              PerformAll(g, next, Reached()) == PerformAll(g, stack, Say(earlier, sentence))
    {
      var enter := Enter(id, g(id).traceback, depth + 1);
      next := stack + [Text(sentence)] + [enter];
      Push(g, stack + [Text(sentence)], enter, Reached());
      Push(g, stack, Text(sentence), Perform(g, enter, Reached()));
    }

    method WriteBody(g: Graph, id: nat, traceback: Frames) returns (members: seq<nat>)
      requires Valid()
      modifies this`framesRendered, output
      ensures Valid() && Reached() == Named(g, id, traceback, old(Reached()))
      ensures members == Admitted(g, id, Reached())
    {
      WriteFrames(traceback);
      Write(ClassText(g(id).name));
      var remaining := MAX_NODES - nodeCount;
      members := g(id).members[..Min(|g(id).members|, remaining)];
      if |g(id).members| > |members| {
        Write("\n");
        Mark(NodeLimit);
      }
    }

    method End(g: Graph, id: nat, traceback: Frames, depth: nat, stack: seq<Task>) returns (next: seq<Task>)
      requires Valid()
      modifies this`framesRendered, output
      ensures Valid()
      ensures PerformAll(g, next, Reached()) == PerformAll(g, stack, Body(g, id, traceback, depth, old(Reached())))
      ensures Finishing(next) == Finishing(stack)
    {
      var members := WriteBody(g, id, traceback);
      next := stack;
      var left := |members|;
      while left > 0
        invariant 0 <= left <= |members|
        invariant next == stack + MemberTasks(g, members[left..], depth + 1)
      {
        left := left - 1;
        assert members[left..][1..] == members[left + 1..];
        next := next + [Enter(members[left], g(members[left]).traceback, depth + 1)] + [Text("\n")];
        assert next == stack + MemberTasks(g, members[left..], depth + 1);
      }
      assert members[0..] == members;
      PushMembers(g, stack, members, depth + 1, Reached());
    }

    /** One turn of the loop: enters an exception, finishes fewer, or drops the task. */
    method Advance(g: Graph, task: Task, rest: seq<Task>) returns (next: seq<Task>)
      requires Valid()
      modifies this, output
      ensures Valid()
      ensures PerformAll(g, next, Reached()) == PerformAll(g, rest, Perform(g, task, old(Reached())))
      ensures || |order| > old(|order|)
              || (|order| == old(|order|) && task.Finish? && Finishing(next) == Finishing(rest))
              || (|order| == old(|order|) && next == rest)
    {
      match task {
        case Text(written) =>
          Write(written);
          next := rest;
        case Finish(id, traceback, depth) =>
          next := End(g, id, traceback, depth, rest);
        case Enter(id, traceback, depth) =>
          next := Begin(g, id, traceback, depth, rest);
      }
    }

    /**
     `_format_traceback_without_exception_value`: on every graph it terminates within the limits of `Valid`, and
     what is written is the recursive rendering, clipped.
     */
    method Format(g: Graph, info: ExcInfo) returns (text: string)
      requires Valid() && Reached() == BLANK
      modifies this, output
      ensures Valid() && |text| <= MAX_OUTPUT
      ensures text == Clip(Rendered(g, info).raw)
    {
      if info.WithoutValue? {
        WriteFrames(info.traceback);
        Write(ClassText(if info.name.Some? then info.name.value else "Exception"));
        text := output.Render();
        return;
      }
      var stack := [Enter(info.id, info.traceback, 0)];
      Push(g, [], stack[0], BLANK);
      assert [] + stack == stack;
      while stack != [] && !output.full
        invariant Valid()
        invariant PerformAll(g, stack, Reached()) == Rendered(g, info)
        decreases MAX_NODES - |order|, Finishing(stack), |stack|
      {
        var task, rest := stack[|stack| - 1], stack[..|stack| - 1];
        stack := Advance(g, task, rest);
      }
      if output.full {
        ClipPrefix(output.raw, Rendered(g, info).raw);
      }
      text := output.Render();
    }
  }

  // ---------------------------------------------------------------- the rendering without limits

  /** An exception unfolded into the tree of everything its rendering mentions. */
  datatype Tree = Tree(id: nat, name: string, traceback: Frames, chain: Chain, members: seq<Tree>)

  datatype Chain = Nothing | After(earlier: Tree, sentence: string)

  ghost predicate Unfolds(g: Graph, id: nat, traceback: Frames, tree: Tree)
    decreases tree
  {
    && tree.id == id && tree.name == g(id).name && tree.traceback == traceback
    && ChainUnfolds(g, id, tree.chain) && UnfoldsAll(g, g(id).members, tree.members)
  }

  ghost predicate ChainUnfolds(g: Graph, id: nat, chain: Chain)
    decreases chain
  {
    match Earlier(g(id))
    case None => chain.Nothing?
    case Some((first, sentence)) =>
      chain.After? && chain.sentence == sentence && Unfolds(g, first, g(first).traceback, chain.earlier)
  }

  ghost predicate UnfoldsAll(g: Graph, ids: seq<nat>, trees: seq<Tree>)
    decreases trees
  {
    if trees == [] then ids == []
    else ids != [] && Unfolds(g, ids[0], g(ids[0]).traceback, trees[0]) && UnfoldsAll(g, ids[1..], trees[1..])
  }

  /** A rendered text with the exceptions entered for it, in order, and the number of frames it shows. */
  datatype Piece = Piece(text: string, ids: seq<nat>, frames: nat)

  function Plus(a: Piece, b: Piece): Piece {
    Piece(a.text + b.text, a.ids + b.ids, a.frames + b.frames)
  }

  function Words(text: string): Piece {
    Piece(text, [], 0)
  }

  function FramesPiece(traceback: Frames): Piece {
    if traceback == [] then Words("") else Piece(HEADER + Joined(FrameTexts(traceback)), [], |traceback|)
  }

  /** Cause or context first, then frames and class name, then the members of a group one after the other. */
  function Whole(tree: Tree): Piece
    decreases tree
  {
    Plus(Before(tree.id, tree.chain), Plus(Own(tree.name, tree.traceback), WholeAll(tree.members)))
  }

  function Before(id: nat, chain: Chain): Piece
    decreases chain
  {
    var entered := Piece("", [id], 0);
    if chain.Nothing? then entered else Plus(Plus(entered, Whole(chain.earlier)), Words(chain.sentence))
  }

  function Own(name: string, traceback: Frames): Piece {
    Plus(FramesPiece(traceback), Words(ClassText(name)))
  }

  function WholeAll(trees: seq<Tree>): Piece
    decreases trees
  {
    if trees == [] then Words("") else Plus(Plus(Words("\n"), Whole(trees[0])), WholeAll(trees[1..]))
  }

  /** Neither the depth nor the frames of any exception pass their limits. */
  predicate Shallow(tree: Tree, depth: nat)
    decreases tree
  {
    && depth <= MAX_DEPTH && |tree.traceback| <= MAX_FRAMES_PER_EXCEPTION
    && ShallowChain(tree.chain, depth + 1) && ShallowAll(tree.members, depth + 1)
  }

  predicate ShallowChain(chain: Chain, depth: nat)
    decreases chain
  {
    chain.After? ==> Shallow(chain.earlier, depth)
  }

  predicate ShallowAll(trees: seq<Tree>, depth: nat)
    decreases trees
  {
    trees != [] ==> Shallow(trees[0], depth) && ShallowAll(trees[1..], depth)
  }

  function Add(p: Progress, piece: Piece): Progress {
    Progress(p.raw + piece.text, p.markers, p.seen + piece.ids, p.frames + piece.frames)
  }

  lemma AddPlus(p: Progress, a: Piece, b: Piece)
    ensures Add(p, Plus(a, b)) == Add(Add(p, a), b)
  {
    assert p.raw + (a.text + b.text) == (p.raw + a.text) + b.text;
    assert p.seen + (a.ids + b.ids) == (p.seen + a.ids) + b.ids;
  }

  lemma AddWords(p: Progress, text: string)
    ensures Add(p, Words(text)) == Say(p, text)
  {
    assert p.seen + [] == p.seen;
  }

  /** Frames are shown in full exactly when no marker is needed. */
  lemma FramedInFull(p: Progress, traceback: Frames)
    requires WithinBounds(p)
    requires FrameLimit !in p.markers
    ensures FrameLimit !in Framed(p, traceback).markers
       <==> |traceback| <= MAX_FRAMES_PER_EXCEPTION && p.frames + |traceback| <= MAX_TOTAL_FRAMES
    ensures FrameLimit !in Framed(p, traceback).markers ==> Framed(p, traceback) == Add(p, FramesPiece(traceback))
  {
    if traceback == [] {
      AddWords(p, "");
      assert p.raw + "" == p.raw;
    } else if FrameLimit !in Framed(p, traceback).markers {
      assert traceback[..|traceback|] == traceback;
      var lines := Joined(FrameTexts(traceback));
      assert (p.raw + HEADER) + lines == p.raw + (HEADER + lines);
      assert p.seen + [] == p.seen;
    }
  }

  /** The class name and frames of a body, when no marker is needed. */
  lemma NamedInFull(g: Graph, id: nat, traceback: Frames, p: Progress)
    requires WithinBounds(p) && p.markers == {}
    ensures Named(g, id, traceback, p).markers == {}
       <==> && |traceback| <= MAX_FRAMES_PER_EXCEPTION && p.frames + |traceback| <= MAX_TOTAL_FRAMES
            && |p.seen| + |g(id).members| <= MAX_NODES
    ensures Named(g, id, traceback, p).markers == {} ==>
              && Named(g, id, traceback, p) == Add(p, Own(g(id).name, traceback))
              && Admitted(g, id, Named(g, id, traceback, p)) == g(id).members
  {
    FramedInFull(p, traceback);
    var framed := Add(p, FramesPiece(traceback));
    AddPlus(p, FramesPiece(traceback), Words(ClassText(g(id).name)));
    AddWords(framed, ClassText(g(id).name));
    assert g(id).members[..|g(id).members|] == g(id).members;
  }

  lemma BeforeInOrder(p: Progress, id: nat, chain: Chain)
    ensures chain.Nothing? ==> Add(p, Before(id, chain)) == p.(seen := p.seen + [id])
    ensures chain.After? ==>
              Add(p, Before(id, chain)) == Say(Add(p.(seen := p.seen + [id]), Whole(chain.earlier)), chain.sentence)
  {
    var entered := Piece("", [id], 0);
    assert p.raw + "" == p.raw;
    if chain.After? {
      AddPlus(p, Plus(entered, Whole(chain.earlier)), Words(chain.sentence));
      AddPlus(p, entered, Whole(chain.earlier));
      AddWords(Add(Add(p, entered), Whole(chain.earlier)), chain.sentence);
    }
  }

  lemma WholeInOrder(p: Progress, tree: Tree)
    ensures var begun := Add(p, Before(tree.id, tree.chain));
            Add(p, Whole(tree)) == Add(Add(begun, Own(tree.name, tree.traceback)), WholeAll(tree.members))
  {
    AddPlus(p, Before(tree.id, tree.chain), Plus(Own(tree.name, tree.traceback), WholeAll(tree.members)));
    AddPlus(Add(p, Before(tree.id, tree.chain)), Own(tree.name, tree.traceback), WholeAll(tree.members));
  }

  lemma AllInOrder(p: Progress, trees: seq<Tree>)
    requires trees != []
    ensures Add(p, WholeAll(trees)) == Add(Add(Say(p, "\n"), Whole(trees[0])), WholeAll(trees[1..]))
  {
    AddPlus(p, Plus(Words("\n"), Whole(trees[0])), WholeAll(trees[1..]));
    AddPlus(p, Words("\n"), Whole(trees[0]));
    AddWords(p, "\n");
  }

  /** A rendering without markers shows a whole unfolding of the exception. */
  lemma {:induction false} UnmarkedIsWhole(g: Graph, id: nat, traceback: Frames, depth: nat, p: Progress)
    returns (tree: Tree)
    requires WithinBounds(p) && Visit(g, id, traceback, depth, p).markers == {}
    ensures Unfolds(g, id, traceback, tree) && Shallow(tree, depth)
    ensures Visit(g, id, traceback, depth, p) == Add(p, Whole(tree))
    decreases MAX_NODES - |p.seen|, 1, 0
  {
    var chain := UnmarkedChain(g, id, depth, p);
    var members := UnmarkedBody(g, id, traceback, depth, Chained(g, id, depth, p));
    tree := Tree(id, g(id).name, traceback, chain, members);
    WholeInOrder(p, tree);
  }

  lemma {:induction false} UnmarkedBody(g: Graph, id: nat, traceback: Frames, depth: nat, p: Progress)
    returns (members: seq<Tree>)
    requires WithinBounds(p) && Body(g, id, traceback, depth, p).markers == {}
    ensures UnfoldsAll(g, g(id).members, members) && ShallowAll(members, depth + 1)
    ensures |traceback| <= MAX_FRAMES_PER_EXCEPTION
    ensures Body(g, id, traceback, depth, p) == Add(Add(p, Own(g(id).name, traceback)), WholeAll(members))
    decreases MAX_NODES - |p.seen|, 3, 0
  {
    NamedInFull(g, id, traceback, p);
    members := UnmarkedAreWhole(g, g(id).members, depth + 1, Named(g, id, traceback, p));
  }

  lemma {:induction false} UnmarkedChain(g: Graph, id: nat, depth: nat, p: Progress) returns (chain: Chain)
    requires WithinBounds(p) && id !in p.seen && |p.seen| < MAX_NODES
    requires Chained(g, id, depth, p).markers == {}
    ensures ChainUnfolds(g, id, chain) && ShallowChain(chain, depth + 1)
    ensures Chained(g, id, depth, p) == Add(p, Before(id, chain))
    decreases MAX_NODES - |p.seen|, 0, 0
  {
    var entered := p.(seen := p.seen + [id]);
    match Earlier(g(id))
    case None =>
      chain := Nothing;
      BeforeInOrder(p, id, chain);
    case Some((first, sentence)) =>
      var earlier := UnmarkedIsWhole(g, first, g(first).traceback, depth + 1, entered);
      chain := After(earlier, sentence);
      BeforeInOrder(p, id, chain);
  }

  lemma {:induction false} UnmarkedAreWhole(g: Graph, ids: seq<nat>, depth: nat, p: Progress) returns (trees: seq<Tree>)
    requires WithinBounds(p) && VisitAll(g, ids, depth, p).markers == {}
    ensures UnfoldsAll(g, ids, trees) && ShallowAll(trees, depth)
    ensures VisitAll(g, ids, depth, p) == Add(p, WholeAll(trees))
    decreases MAX_NODES - |p.seen|, 2, |ids|
  {
    if ids == [] {
      trees := [];
      AddWords(p, "");
      assert p.raw + "" == p.raw;
    } else {
      var spaced := Say(p, "\n");
      var first := UnmarkedIsWhole(g, ids[0], g(ids[0]).traceback, depth, spaced);
      var rest := UnmarkedAreWhole(g, ids[1..], depth, Add(spaced, Whole(first)));
      trees := [first] + rest;
      assert trees[1..] == rest;
      AllInOrder(p, trees);
    }
  }

  lemma RoomBefore(p: Progress, r: Progress)
    requires WithinBounds(r) && p.seen <= r.seen && p.frames <= r.frames
    ensures WithinBounds(p)
  {
    assert forall i | 0 <= i < |p.seen| :: p.seen[i] == r.seen[i];
  }

  lemma {:induction false} EachTreeCounts(trees: seq<Tree>)
    ensures |trees| <= |WholeAll(trees).ids|
  {
    if trees != [] {
      EachTreeCounts(trees[1..]);
      assert |Before(trees[0].id, trees[0].chain).ids| >= 1;
    }
  }

  lemma {:induction false} UnfoldsInPairs(g: Graph, ids: seq<nat>, trees: seq<Tree>)
    requires UnfoldsAll(g, ids, trees)
    ensures |ids| == |trees|
  {
    if trees != [] {
      UnfoldsInPairs(g, ids[1..], trees[1..]);
    }
  }

  /** A whole unfolding within the limits is rendered without markers. */
  lemma {:induction false} WholeIsRendered(g: Graph, id: nat, traceback: Frames, depth: nat, p: Progress, tree: Tree)
    requires WithinBounds(p) && p.markers == {}
    requires Unfolds(g, id, traceback, tree) && Shallow(tree, depth) && WithinBounds(Add(p, Whole(tree)))
    ensures Visit(g, id, traceback, depth, p) == Add(p, Whole(tree))
    decreases tree
  {
    var before := Add(p, Before(id, tree.chain));
    WholeInOrder(p, tree);
    RoomBefore(before, Add(p, Whole(tree)));
    ChainIsRendered(g, id, depth, p, tree.chain);
    BodyIsRendered(g, id, traceback, depth, before, tree.members);
  }

  lemma {:induction false} BodyIsRendered(
      g: Graph, id: nat, traceback: Frames, depth: nat, p: Progress, members: seq<Tree>)
    requires WithinBounds(p) && p.markers == {} && |traceback| <= MAX_FRAMES_PER_EXCEPTION
    requires UnfoldsAll(g, g(id).members, members) && ShallowAll(members, depth + 1)
    requires WithinBounds(Add(Add(p, Own(g(id).name, traceback)), WholeAll(members)))
    ensures Body(g, id, traceback, depth, p) == Add(Add(p, Own(g(id).name, traceback)), WholeAll(members))
    decreases members, 1
  {
    var own := Add(p, Own(g(id).name, traceback));
    RoomBefore(own, Add(own, WholeAll(members)));
    EachTreeCounts(members);
    UnfoldsInPairs(g, g(id).members, members);
    NamedInFull(g, id, traceback, p);
    MembersAreRendered(g, g(id).members, depth + 1, own, members);
  }

  lemma RoomToEnter(p: Progress, id: nat, chain: Chain)
    requires WithinBounds(p) && WithinBounds(Add(p, Before(id, chain)))
    ensures id !in p.seen && |p.seen| < MAX_NODES && WithinBounds(p.(seen := p.seen + [id]))
    ensures chain.After? ==> WithinBounds(Add(p.(seen := p.seen + [id]), Whole(chain.earlier)))
  {
    var entered, all := p.(seen := p.seen + [id]), Add(p, Before(id, chain));
    BeforeInOrder(p, id, chain);
    RoomBefore(entered, all);
    forall i | 0 <= i < |p.seen|
      ensures p.seen[i] != id
    {
      assert entered.seen[i] == p.seen[i] && entered.seen[|p.seen|] == id;
    }
  }

  lemma {:induction false} ChainIsRendered(g: Graph, id: nat, depth: nat, p: Progress, chain: Chain)
    requires WithinBounds(p) && p.markers == {}
    requires ChainUnfolds(g, id, chain) && ShallowChain(chain, depth + 1) && WithinBounds(Add(p, Before(id, chain)))
    ensures id !in p.seen && |p.seen| < MAX_NODES && Chained(g, id, depth, p) == Add(p, Before(id, chain))
    decreases chain
  {
    var entered := p.(seen := p.seen + [id]);
    RoomToEnter(p, id, chain);
    BeforeInOrder(p, id, chain);
    if chain.After? {
      WholeIsRendered(g, chain.earlier.id, chain.earlier.traceback, depth + 1, entered, chain.earlier);
    }
  }

  lemma {:induction false} MembersAreRendered(g: Graph, ids: seq<nat>, depth: nat, p: Progress, trees: seq<Tree>)
    requires WithinBounds(p) && p.markers == {}
    requires UnfoldsAll(g, ids, trees) && ShallowAll(trees, depth) && WithinBounds(Add(p, WholeAll(trees)))
    ensures VisitAll(g, ids, depth, p) == Add(p, WholeAll(trees))
    decreases trees, 0
  {
    if trees == [] {
      AddWords(p, "");
      assert p.raw + "" == p.raw;
    } else {
      var spaced := Say(p, "\n");
      AllInOrder(p, trees);
      RoomBefore(Add(spaced, Whole(trees[0])), Add(p, WholeAll(trees)));
      WholeIsRendered(g, ids[0], g(ids[0]).traceback, depth, spaced, trees[0]);
      MembersAreRendered(g, ids[1..], depth, Add(spaced, Whole(trees[0])), trees[1..]);
    }
  }

  /** The unfolding shares no exception and passes no limit. */
  predicate Fits(tree: Tree) {
    && Shallow(tree, 0) && Distinct(Whole(tree).ids)
    && |Whole(tree).ids| <= MAX_NODES && Whole(tree).frames <= MAX_TOTAL_FRAMES
  }

  /**
   On every graph: no marker is written if and only if the exception unfolds into a tree without sharing that
   passes no limit; and then the text is the recursive rendering of that tree.
   */
  lemma UnmarkedExactlyWhenItFits(g: Graph, id: nat, traceback: Frames)
    ensures var r := Rendered(g, Raised(id, traceback));
            && (r.markers == {} <==> exists tree :: Unfolds(g, id, traceback, tree) && Fits(tree))
            && (forall tree | Unfolds(g, id, traceback, tree) && Fits(tree) :: r.raw == Whole(tree).text)
  {
    var r := Rendered(g, Raised(id, traceback));
    forall tree | Unfolds(g, id, traceback, tree) && Fits(tree)
      ensures r.raw == Whole(tree).text && r.markers == {}
    {
      AddBlank(Whole(tree));
      WholeIsRendered(g, id, traceback, 0, BLANK, tree);
    }
    if r.markers == {} {
      var tree := UnmarkedIsWhole(g, id, traceback, 0, BLANK);
      AddBlank(Whole(tree));
      assert Unfolds(g, id, traceback, tree) && Fits(tree);
    }
  }

  lemma AddBlank(piece: Piece)
    ensures Add(BLANK, piece) == Progress(piece.text, {}, piece.ids, piece.frames)
  {
    assert "" + piece.text == piece.text && [] + piece.ids == piece.ids;
  }
}
