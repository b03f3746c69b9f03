/** The descriptor complexity counter of the plugin: an explicit stack and early rejection. */
module Complexity {
  datatype Limit = Unlimited | AtMost(bound: nat)
  datatype Enum = Enum(values: nat, reservedNames: nat, reservedRanges: nat)
  datatype Message = Message(fields: nat, extensions: nat, oneofs: nat, extensionRanges: nat,
                             reservedRanges: nat, reservedNames: nat, enums: seq<Enum>, nested: seq<Message>)
  /** A service is the number of its methods. */
  datatype File = File(extensions: nat, enums: seq<Enum>, services: seq<nat>, messages: seq<Message>)
  datatype Verdict = Accepted(nodes: nat, depth: nat) | TooManyNodes | TooDeep

  predicate Allows(limit: Limit, actual: nat) {
    limit.AtMost? ==> actual <= limit.bound
  }

  // ---------------------------------------------------------------- what is being counted

  function EnumNodeCount(e: Enum): nat { 1 + e.values + e.reservedNames + e.reservedRanges }

  /** The nodes a message declares itself, without its enums and nested messages. */
  function MessageNodeCount(m: Message): nat {
    1 + m.fields + m.extensions + m.oneofs + m.extensionRanges + m.reservedRanges + m.reservedNames
  }

  function EnumNodes(es: seq<Enum>): nat {
    if es == [] then 0 else EnumNodes(es[..|es| - 1]) + EnumNodeCount(es[|es| - 1])
  }

  function ServiceNodes(ss: seq<nat>): nat {
    if ss == [] then 0 else ServiceNodes(ss[..|ss| - 1]) + 1 + ss[|ss| - 1]
  }

  /** Every declaration in the tree of a message. */
  function Nodes(m: Message): nat
    decreases m
  {
    MessageNodeCount(m) + EnumNodes(m.enums) + TreeNodes(m.nested)
  }

  function TreeNodes(ms: seq<Message>): nat
    decreases ms
  {
    if ms == [] then 0 else TreeNodes(ms[..|ms| - 1]) + Nodes(ms[|ms| - 1])
  }

  function Max(a: nat, b: nat): nat { if a < b then b else a }

  /** The height of the tree of a message. */
  function Depth(m: Message): nat
    decreases m
  {
    1 + TreeDepth(m.nested)
  }

  function TreeDepth(ms: seq<Message>): nat
    decreases ms
  {
    if ms == [] then 0 else Max(TreeDepth(ms[..|ms| - 1]), Depth(ms[|ms| - 1]))
  }

  function FileNodes(f: File): nat {
    1 + f.extensions + EnumNodes(f.enums) + ServiceNodes(f.services) + TreeNodes(f.messages)
  }

  function TotalNodes(fs: seq<File>): nat {
    if fs == [] then 0 else TotalNodes(fs[..|fs| - 1]) + FileNodes(fs[|fs| - 1])
  }

  function TotalDepth(fs: seq<File>): nat {
    if fs == [] then 0 else Max(TotalDepth(fs[..|fs| - 1]), TreeDepth(fs[|fs| - 1].messages))
  }

  const NO_MESSAGE := Message(0, 0, 0, 0, 0, 0, [], [])
  const NO_ENUM := Enum(0, 0, 0)
  const NO_FILE := File(0, [], [], [])

  /** Every declaration of a message counts once, and so do the message and each enum themselves. */
  lemma MessageDeclarationsCount(m: Message, e: Enum, n: Message)
    ensures Nodes(NO_MESSAGE) == 1
    ensures Nodes(m.(fields := m.fields + 1)) == Nodes(m.(extensions := m.extensions + 1)) == Nodes(m.(oneofs := m.oneofs + 1)) == Nodes(m) + 1
    ensures Nodes(m.(extensionRanges := m.extensionRanges + 1)) == Nodes(m.(reservedRanges := m.reservedRanges + 1)) == Nodes(m) + 1
    ensures Nodes(m.(reservedNames := m.reservedNames + 1)) == Nodes(m) + 1
    ensures Nodes(m.(enums := m.enums + [e])) == Nodes(m) + EnumNodeCount(e) && Nodes(m.(nested := m.nested + [n])) == Nodes(m) + Nodes(n)
    ensures EnumNodeCount(NO_ENUM) == 1
    ensures EnumNodeCount(e.(values := e.values + 1)) == EnumNodeCount(e.(reservedNames := e.reservedNames + 1)) == EnumNodeCount(e) + 1
    ensures EnumNodeCount(e.(reservedRanges := e.reservedRanges + 1)) == EnumNodeCount(e) + 1
  {
    assert (m.enums + [e])[..|m.enums|] == m.enums;
    assert (m.nested + [n])[..|m.nested|] == m.nested;
  }

  /** The same for a file, its services with their methods, and a request of several files. */
  lemma FileDeclarationsCount(f: File, e: Enum, methods: nat, m: Message, fs: seq<File>)
    ensures FileNodes(NO_FILE) == 1 && FileNodes(f.(extensions := f.extensions + 1)) == FileNodes(f) + 1
    ensures FileNodes(f.(enums := f.enums + [e])) == FileNodes(f) + EnumNodeCount(e)
    ensures FileNodes(f.(services := f.services + [methods])) == FileNodes(f) + 1 + methods
    ensures FileNodes(f.(messages := f.messages + [m])) == FileNodes(f) + Nodes(m)
    ensures TotalNodes([]) == 0 && TotalNodes(fs + [f]) == TotalNodes(fs) + FileNodes(f)
    ensures TotalDepth([]) == 0
    ensures TotalDepth(fs + [f]) == if TotalDepth(fs) < TreeDepth(f.messages) then TreeDepth(f.messages) else TotalDepth(fs)
  {
    hide Nodes, EnumNodeCount, TreeDepth;
    assert (f.enums + [e])[..|f.enums|] == f.enums;
    assert (f.services + [methods])[..|f.services|] == f.services;
    assert (f.messages + [m])[..|f.messages|] == f.messages;
    assert (fs + [f])[..|fs|] == fs;
  }

  /** Messages each of which is nested in the one before. */
  ghost predicate Chain(ms: seq<Message>, chain: seq<Message>) {
    chain == [] || (chain[0] in ms && Chain(chain[0].nested, chain[1..]))
  }

  /** The depth of a list of messages is the length of the longest chain of nested messages. */
  lemma {:induction false} DepthIsLongest(ms: seq<Message>) returns (chain: seq<Message>)
    ensures Chain(ms, chain) && |chain| == TreeDepth(ms)
    decreases ms, 1
  {
    if ms == [] {
      chain := [];
    } else {
      var n := |ms| - 1;
      chain := DepthIsLongest(ms[..n]);
      if Depth(ms[n]) > |chain| {
        var deeper := DepthIsLongest(ms[n].nested);
        chain := [ms[n]] + deeper;
        assert chain[1..] == deeper;
      } else if chain != [] {
        assert chain[0] in ms;
      }
    }
  }

  lemma {:induction false} NoLongerChain(ms: seq<Message>, chain: seq<Message>)
    requires Chain(ms, chain)
    ensures |chain| <= TreeDepth(ms)
    decreases chain
  {
    if chain != [] {
      NoLongerChain(chain[0].nested, chain[1..]);
      DeepestMember(ms, chain[0]);
    }
  }

  lemma {:induction false} DeepestMember(ms: seq<Message>, m: Message)
    requires m in ms
    ensures 1 + TreeDepth(m.nested) <= TreeDepth(ms)
  {
    if m != ms[|ms| - 1] { DeepestMember(ms[..|ms| - 1], m); }
  }

  // ---------------------------------------------------------------- what is still on the stack

  function PendingNodes(stack: seq<(Message, nat)>): nat {
    if stack == [] then 0 else PendingNodes(stack[..|stack| - 1]) + Nodes(stack[|stack| - 1].0)
  }

  /** The deepest level of any tree on the stack; an entry's depth counts its own message. */
  function PendingDepth(stack: seq<(Message, nat)>): nat {
    if stack == [] then 0
    else
      var (m, depth) := stack[|stack| - 1];
      Max(PendingDepth(stack[..|stack| - 1]), depth + TreeDepth(m.nested))
  }

  function Entries(ms: seq<Message>, depth: nat): seq<(Message, nat)> {
    seq(|ms|, i requires 0 <= i < |ms| => (ms[i], depth))
  }

  lemma EntriesSplit(stack: seq<(Message, nat)>, ms: seq<Message>, depth: nat)
    requires ms != []
    ensures stack + Entries(ms, depth) == stack + Entries(ms[..|ms| - 1], depth) + [(ms[|ms| - 1], depth)]
  {
  }

  lemma NoEntries(stack: seq<(Message, nat)>, depth: nat)
    ensures stack + Entries([], depth) == stack
  {
  }

  lemma OnTop(stack: seq<(Message, nat)>, m: Message, depth: nat)
    ensures PendingNodes(stack + [(m, depth)]) == PendingNodes(stack) + Nodes(m)
    ensures PendingDepth(stack + [(m, depth)]) == Max(PendingDepth(stack), depth + TreeDepth(m.nested))
  {
    hide Nodes, TreeDepth, Max;
    assert (stack + [(m, depth)])[..|stack|] == stack;
  }

  lemma LastNodes(ms: seq<Message>)
    requires ms != []
    ensures TreeNodes(ms) == TreeNodes(ms[..|ms| - 1]) + Nodes(ms[|ms| - 1])
  {
    hide Nodes, Max, TreeDepth, Depth;
  }

  lemma LastDepth(ms: seq<Message>)
    requires ms != []
    ensures TreeDepth(ms) == Max(TreeDepth(ms[..|ms| - 1]), Depth(ms[|ms| - 1]))
  {
    hide Max, TreeNodes, Nodes, Depth;
  }

  lemma DepthOf(m: Message)
    ensures Depth(m) == 1 + TreeDepth(m.nested)
  {
    hide Max, TreeNodes, Nodes, TreeDepth;
  }

  lemma {:induction false} PushedNodes(stack: seq<(Message, nat)>, ms: seq<Message>, depth: nat)
    ensures PendingNodes(stack + Entries(ms, depth)) == PendingNodes(stack) + TreeNodes(ms)
  {
    hide PendingNodes, PendingDepth, Entries, Nodes, TreeDepth, Max;
    if ms == [] {
      NoEntries(stack, depth);
    } else {
      hide TreeNodes;
      var init := ms[..|ms| - 1];
      PushedNodes(stack, init, depth);
      EntriesSplit(stack, ms, depth);
      OnTop(stack + Entries(init, depth), ms[|ms| - 1], depth);
      LastNodes(ms);
    }
  }

  lemma {:induction false} PushedDepth(stack: seq<(Message, nat)>, ms: seq<Message>, depth: nat)
    requires depth >= 1
    ensures PendingDepth(stack + Entries(ms, depth))
         == if ms == [] then PendingDepth(stack) else Max(PendingDepth(stack), depth - 1 + TreeDepth(ms))
  {
    hide PendingNodes, PendingDepth, Entries, Nodes, TreeNodes;
    if ms == [] {
      NoEntries(stack, depth);
    } else {
      var init := ms[..|ms| - 1];
      PushedDepth(stack, init, depth);
      EntriesSplit(stack, ms, depth);
      OnTop(stack + Entries(init, depth), ms[|ms| - 1], depth);
      LastDepth(ms);
      DepthOf(ms[|ms| - 1]);
      NoTree();
      hide TreeDepth;
    }
  }

  /** Every message counts for at least one node, which is what makes the look-ahead checks sound. */
  lemma {:induction false} OneNodeEach(ms: seq<Message>)
    ensures |ms| <= TreeNodes(ms)
  {
    if ms != [] { OneNodeEach(ms[..|ms| - 1]); }
  }

  /** The stack after its top message is replaced by that message's nested ones. */
  function Expanded(stack: seq<(Message, nat)>): seq<(Message, nat)>
    requires stack != []
  {
    var (m, level) := stack[|stack| - 1];
    stack[..|stack| - 1] + Entries(m.nested, level + 1)
  }

  lemma TopNodes(stack: seq<(Message, nat)>)
    requires stack != []
    ensures var m := stack[|stack| - 1].0;
      PendingNodes(stack) == PendingNodes(stack[..|stack| - 1]) + MessageNodeCount(m) + EnumNodes(m.enums) + TreeNodes(m.nested)
  {
    hide EnumNodes, MessageNodeCount, Depth, Max, TreeNodes, PendingDepth, TreeDepth;
  }

  lemma TopDepth(stack: seq<(Message, nat)>)
    requires stack != []
    ensures var (m, level) := stack[|stack| - 1];
      PendingDepth(stack) == Max(PendingDepth(stack[..|stack| - 1]), level + TreeDepth(m.nested))
  {
    hide EnumNodes, MessageNodeCount, Depth, Max, TreeNodes, PendingNodes, TreeDepth, Entries;
  }

  lemma NoTree()
    ensures TreeDepth([]) == 0
  {
  }

  lemma ExpandedMeasures(stack: seq<(Message, nat)>)
    requires stack != []
    ensures var (m, level) := stack[|stack| - 1];
      && PendingNodes(stack) == MessageNodeCount(m) + EnumNodes(m.enums) + PendingNodes(Expanded(stack))
      && PendingDepth(stack) == Max(level, PendingDepth(Expanded(stack)))
      && |m.nested| <= PendingNodes(Expanded(stack))
  {
    hide EnumNodes, MessageNodeCount, PendingNodes, PendingDepth, TreeNodes, TreeDepth, Entries;
    var (m, level) := stack[|stack| - 1];
    var init := stack[..|stack| - 1];
    TopNodes(stack);
    TopDepth(stack);
    NoTree();
    PushedNodes(init, m.nested, level + 1);
    PushedDepth(init, m.nested, level + 1);
    OneNodeEach(m.nested);
  }

  lemma InitialMeasures(ms: seq<Message>)
    ensures PendingNodes(Entries(ms, 1)) == TreeNodes(ms) && PendingDepth(Entries(ms, 1)) == TreeDepth(ms)
    ensures |ms| <= TreeNodes(ms)
  {
    PushedNodes([], ms, 1);
    PushedDepth([], ms, 1);
    assert [] + Entries(ms, 1) == Entries(ms, 1);
    OneNodeEach(ms);
  }

  lemma {:induction false} EnumsGrow(es: seq<Enum>, i: nat)
    requires i <= |es|
    ensures EnumNodes(es[..i]) <= EnumNodes(es)
  {
    if i < |es| {
      assert es[..|es| - 1][..i] == es[..i];
      EnumsGrow(es[..|es| - 1], i);
    } else {
      assert es[..i] == es;
    }
  }

  lemma {:induction false} ServicesGrow(ss: seq<nat>, i: nat)
    requires i <= |ss|
    ensures ServiceNodes(ss[..i]) <= ServiceNodes(ss)
  {
    if i < |ss| {
      assert ss[..|ss| - 1][..i] == ss[..i];
      ServicesGrow(ss[..|ss| - 1], i);
    } else {
      assert ss[..i] == ss;
    }
  }

  lemma {:induction false} FilesGrow(fs: seq<File>, i: nat)
    requires i <= |fs|
    ensures TotalNodes(fs[..i]) <= TotalNodes(fs) && TotalDepth(fs[..i]) <= TotalDepth(fs)
  {
    if i < |fs| {
      assert fs[..|fs| - 1][..i] == fs[..i];
      FilesGrow(fs[..|fs| - 1], i);
    } else {
      assert fs[..i] == fs;
    }
  }

  // ---------------------------------------------------------------- the counter

  /** Adds the enums one by one, stopping at the first total over the limit. */
  method AddEnums(start: nat, enums: seq<Enum>, limit: Limit) returns (ok: bool, nodes: nat)
    requires Allows(limit, start)
    ensures ok <==> Allows(limit, start + EnumNodes(enums))
    ensures ok ==> nodes == start + EnumNodes(enums)
  {
    nodes := start;
    for i := 0 to |enums|
      invariant nodes == start + EnumNodes(enums[..i]) && Allows(limit, nodes)
    {
      assert enums[..i + 1][..i] == enums[..i];
      EnumsGrow(enums, i + 1);
      nodes := nodes + EnumNodeCount(enums[i]);
      if !Allows(limit, nodes) { return false, nodes; }
    }
    assert enums[..|enums|] == enums;
    ok := true;
  }

  method AddServices(start: nat, services: seq<nat>, limit: Limit) returns (ok: bool, nodes: nat)
    requires Allows(limit, start)
    ensures ok <==> Allows(limit, start + ServiceNodes(services))
    ensures ok ==> nodes == start + ServiceNodes(services)
  {
    nodes := start;
    for i := 0 to |services|
      invariant nodes == start + ServiceNodes(services[..i]) && Allows(limit, nodes)
    {
      assert services[..i + 1][..i] == services[..i];
      ServicesGrow(services, i + 1);
      nodes := nodes + 1 + services[i];
      if !Allows(limit, nodes) { return false, nodes; }
    }
    assert services[..|services|] == services;
    ok := true;
  }

  /** The stack loop over the message trees of one file. */
  method AddMessages(startNodes: nat, startDepth: nat, messages: seq<Message>, maxNodes: Limit, maxDepth: Limit)
    returns (r: Verdict)
    requires Allows(maxNodes, startNodes) && Allows(maxDepth, startDepth)
    ensures r.Accepted? <==> Allows(maxNodes, startNodes + TreeNodes(messages)) && Allows(maxDepth, Max(startDepth, TreeDepth(messages)))
    ensures r.Accepted? ==> r.nodes == startNodes + TreeNodes(messages) && r.depth == Max(startDepth, TreeDepth(messages))
    ensures r.TooManyNodes? ==> !Allows(maxNodes, startNodes + TreeNodes(messages))
    ensures r.TooDeep? ==> !Allows(maxDepth, TreeDepth(messages))
  {
    InitialMeasures(messages);
    if !Allows(maxNodes, startNodes + |messages|) { return TooManyNodes; }
    var nodes: nat, depth: nat := startNodes, startDepth;
    var stack := Entries(messages, 1);
    hide PendingNodes, PendingDepth, TreeNodes, TreeDepth, EnumNodes, Entries, Expanded, MessageNodeCount, Max;
    while stack != []
      invariant nodes + PendingNodes(stack) == startNodes + TreeNodes(messages)
      invariant Max(depth, PendingDepth(stack)) == Max(startDepth, TreeDepth(messages))
      invariant Allows(maxNodes, nodes) && Allows(maxDepth, depth)
      decreases PendingNodes(stack)
    {
      ExpandedMeasures(stack);
      var (message, level) := stack[|stack| - 1];
      MaxFacts(maxDepth, depth, level, PendingDepth(Expanded(stack)));
      MaxFacts(maxDepth, startDepth, TreeDepth(messages), 0);
      if !Allows(maxDepth, level) { return TooDeep; }
      nodes := nodes + MessageNodeCount(message);
      if !Allows(maxNodes, nodes) { return TooManyNodes; }
      var ok;
      ok, nodes := AddEnums(nodes, message.enums, maxNodes);
      if !ok { return TooManyNodes; }
      depth := Max(depth, level);
      if !Allows(maxNodes, nodes + |message.nested|) { return TooManyNodes; }
      stack := Expanded(stack);
    }
    NothingPending();
    MaxFacts(maxDepth, depth, 0, 0);
    r := Accepted(nodes, depth);
  }

  lemma MaxFacts(limit: Limit, a: nat, b: nat, c: nat)
    ensures Max(a, Max(b, c)) == Max(Max(a, b), c) && Max(a, 0) == a
    ensures Allows(limit, Max(a, Max(b, c))) <==> Allows(limit, a) && Allows(limit, b) && Allows(limit, c)
    ensures Allows(limit, Max(a, b)) <==> Allows(limit, a) && Allows(limit, b)
  {
  }

  lemma NothingPending()
    ensures PendingNodes([]) == 0 && PendingDepth([]) == 0
  {
  }

  lemma NextFile(fs: seq<File>, i: nat)
    requires i < |fs|
    ensures TotalNodes(fs[..i + 1]) == TotalNodes(fs[..i]) + FileNodes(fs[i])
    ensures TotalDepth(fs[..i + 1]) == Max(TotalDepth(fs[..i]), TreeDepth(fs[i].messages))
    ensures TotalNodes(fs[..i + 1]) <= TotalNodes(fs) && TotalDepth(fs[..i + 1]) <= TotalDepth(fs)
  {
    assert fs[..i + 1][..i] == fs[..i];
    FilesGrow(fs, i + 1);
    hide TreeDepth, FileNodes;
  }

  /** Rejects exactly when a limit is exceeded, and otherwise returns the exact total and depth. */
  method RequestComplexity(files: seq<File>, maxNodes: Limit, maxDepth: Limit) returns (r: Verdict)
    ensures r.Accepted? <==> && (maxNodes.AtMost? ==> TotalNodes(files) <= maxNodes.bound)
                             && (maxDepth.AtMost? ==> TotalDepth(files) <= maxDepth.bound)
    ensures r.Accepted? ==> r.nodes == TotalNodes(files) && r.depth == TotalDepth(files)
    ensures r.TooManyNodes? ==> maxNodes.AtMost? && TotalNodes(files) > maxNodes.bound
    ensures r.TooDeep? ==> maxDepth.AtMost? && TotalDepth(files) > maxDepth.bound
  {
    hide TotalNodes, TotalDepth, FileNodes, TreeDepth, Max;
    var nodes: nat, depth: nat := 0, 0;
    NoFiles();
    assert files[..0] == [];
    for i := 0 to |files|
      invariant nodes == TotalNodes(files[..i]) && depth == TotalDepth(files[..i])
      invariant Allows(maxNodes, nodes) && Allows(maxDepth, depth)
    {
      NextFile(files, i);
      MaxFacts(maxDepth, depth, TreeDepth(files[i].messages), 0);
      r := AddFile(nodes, depth, files[i], maxNodes, maxDepth);
      if !r.Accepted? { return; }
      nodes, depth := r.nodes, r.depth;
    }
    assert files[..|files|] == files;
    r := Accepted(nodes, depth);
  }

  /** One file of the outer loop. */
  method AddFile(startNodes: nat, startDepth: nat, file: File, maxNodes: Limit, maxDepth: Limit) returns (r: Verdict)
    requires Allows(maxNodes, startNodes) && Allows(maxDepth, startDepth)
    ensures r.Accepted? <==>
              Allows(maxNodes, startNodes + FileNodes(file)) && Allows(maxDepth, Max(startDepth, TreeDepth(file.messages)))
    ensures r.Accepted? ==> r.nodes == startNodes + FileNodes(file) && r.depth == Max(startDepth, TreeDepth(file.messages))
    ensures r.TooManyNodes? ==> !Allows(maxNodes, startNodes + FileNodes(file))
    ensures r.TooDeep? ==> !Allows(maxDepth, TreeDepth(file.messages))
  {
    hide TreeNodes, TreeDepth, EnumNodes, ServiceNodes, Max;
    var nodes: nat := startNodes + 1 + file.extensions;
    if !Allows(maxNodes, nodes) { return TooManyNodes; }
    var ok;
    ok, nodes := AddEnums(nodes, file.enums, maxNodes);
    if !ok { return TooManyNodes; }
    ok, nodes := AddServices(nodes, file.services, maxNodes);
    if !ok { return TooManyNodes; }
    r := AddMessages(nodes, startDepth, file.messages, maxNodes, maxDepth);
  }

  lemma NoFiles()
    ensures TotalNodes([]) == 0 && TotalDepth([]) == 0
  {
  }
}
