/** The corosync configuration file that GenerateConfig renders from its
    template: a totem section naming the cluster, a node list with one block
    per address, numbered from 1 in the order given, and fixed quorum and
    logging sections. Addresses are the text each one prints as. */
module Config {
  import opened Text

  // ---------------------------------------------------------------------
  // The template

  /** Everything up to the cluster name. */
  const Header: string := "totem {\n version: 2\n cluster_name: "
  /** From the end of the cluster name to the brace that opens the node
      list. */
  const TotemTail: string := "\n" + (TotemSettings + NodelistOpen)
  const TotemSettings: string := " secauth: off\n transport: udpu\n}\n\n"
  const NodelistOpen: string := "nodelist {"
  /** The start of a node block, up to its address. */
  const NodeOpen: string := "\n  node {\n    ring0_addr: "
  /** From the end of the address to the node identifier. */
  const IdLine: string := "\n    nodeid: "
  const NodeClose: string := "\n  }"
  /** From the end of the last node block to the end of the file: the brace
      that closes the node list, then the quorum and logging sections. */
  const Footer: string := NodelistClose + (QuorumSection + LoggingSection)
  const NodelistClose: string := "\n}"
  const QuorumSection: string := "\n\nquorum {\n  provider: corosync_votequorum\n}"
  const LoggingSection: string :=
    "\n\nlogging {\n  to_logfile: yes\n" + "  logfile: /var/log/cluster/corosync.log\n  to_syslog: yes\n}"

  /** One iteration of the template's range over the addresses: the address
      is printed as it is and the identifier in decimal. */
  function NodeBlock(addr: string, id: nat): string {
    NodeOpen + (addr + (IdLine + (Decimal(id) + NodeClose)))
  }

  /** The node blocks for `addrs`, whose first address sits at index `i` of
      the whole list; `inc` makes the identifier the index plus one. */
  function NodeBlocks(addrs: seq<string>, i: nat): string
    decreases |addrs|
  {
    if addrs == [] then "" else NodeBlock(addrs[0], i + 1) + NodeBlocks(addrs[1..], i + 1)
  }

  /** GenerateConfig: the template executed with the addresses and the
      cluster name. Nothing in the template can fail on a string. */
  function GenerateConfig(nodeIPs: seq<string>, clusterName: string): (c: string)
    ensures Header + clusterName + "\n" <= c
    ensures |c| >= |Header| + |clusterName| + |TotemTail| + |Footer|
  {
    Header + (clusterName + (TotemTail + (NodeBlocks(nodeIPs, 0) + Footer)))
  }

  // ---------------------------------------------------------------------
  // Reading a rendered file back

  datatype ConfigNode = ConfigNode(addr: string, id: nat)
  datatype ClusterConfig = ClusterConfig(name: string, nodes: seq<ConfigNode>)

  /** Reads one node block from the front of `s`: the address runs to the
      end of its line and the identifier is the run of digits after
      `nodeid: `. Returns the node and the text after the block. */
  function ParseNode(s: string): (r: Option<(ConfigNode, string)>)
    ensures r.Some? ==> '\n' !in r.value.0.addr && |r.value.1| < |s|
  {
    if NodeOpen <= s then
      var t := s[|NodeOpen|..];
      var n := LineLength(t);
      var u := t[n..];
      if IdLine <= u then
        var v := u[|IdLine|..];
        var d := DigitRun(v);
        if d > 0 && NodeClose <= v[d..] then
          Some((ConfigNode(t[..n], DecimalValue(v[..d])), v[d..][|NodeClose|..]))
        else None
      else None
    else None
  }

  /** Reads node blocks up to the footer. */
  function ParseNodes(s: string): (r: Option<seq<ConfigNode>>)
    ensures r.Some? && s == Footer ==> r.value == []
    ensures r.Some? ==> forall k :: 0 <= k < |r.value| ==> '\n' !in r.value[k].addr
    decreases |s|
  {
    if s == Footer then Some([])
    else
      match ParseNode(s)
      case None => None
      case Some((node, after)) =>
        match ParseNodes(after)
        case None => None
        case Some(rest) =>
          assert forall k :: 0 < k <= |rest| ==> ([node] + rest)[k] == rest[k - 1];
          Some([node] + rest)
  }

  /** Reads a rendered file back into the cluster name and its numbered
      addresses; anything not in the template's shape is None. */
  function ParseConfig(c: string): (r: Option<ClusterConfig>)
    ensures r.Some? ==> '\n' !in r.value.name
    ensures r.Some? ==> forall k :: 0 <= k < |r.value.nodes| ==> '\n' !in r.value.nodes[k].addr
  {
    if Header <= c then
      var t := c[|Header|..];
      var n := LineLength(t);
      var u := t[n..];
      if TotemTail <= u then
        match ParseNodes(u[|TotemTail|..])
        case None => None
        case Some(nodes) => Some(ClusterConfig(t[..n], nodes))
      else None
    else None
  }

  // ---------------------------------------------------------------------
  // The rendered file reads back as its input

  /** Every address of `addrs` is free of line breaks. */
  predicate OneLine(addrs: seq<string>) {
    forall k :: 0 <= k < |addrs| ==> '\n' !in addrs[k]
  }

  /** The nodes of `addrs` numbered from `i + 1` in order. */
  predicate Numbered(nodes: seq<ConfigNode>, addrs: seq<string>, i: nat) {
    |nodes| == |addrs| && forall k :: 0 <= k < |addrs| ==> nodes[k] == ConfigNode(addrs[k], i + k + 1)
  }

  lemma LineBeforeNewline(line: string, rest: string)
    requires '\n' !in line && |rest| > 0 && rest[0] == '\n'
    ensures LineLength(line + rest) == |line|
  {
    var s := line + rest;
    assert s[|line|] == '\n';
    assert s[..|line|] == line;
    LineLengthUnique(s, |line|);
  }

  lemma DigitsBeforeClose(id: nat, rest: string)
    ensures DigitRun(Decimal(id) + (NodeClose + rest)) == |Decimal(id)|
  {
    var v := Decimal(id) + (NodeClose + rest);
    assert v[..|Decimal(id)|] == Decimal(id);
    assert v[|Decimal(id)|] == '\n';
    DigitRunUnique(v, |Decimal(id)|);
  }

  /** A node block is read as its address and identifier, and reading
      stops right after it. */
  lemma ParseNodeOf(addr: string, id: nat, rest: string)
    requires '\n' !in addr
    ensures ParseNode(NodeBlock(addr, id) + rest) == Some((ConfigNode(addr, id), rest))
  {
    var dec := Decimal(id);
    var c := NodeClose + rest;
    var v := dec + c;
    var u := IdLine + v;
    var t := addr + u;
    assert NodeBlock(addr, id) + rest == NodeOpen + t;
    Split(NodeOpen, t);
    Split(addr, u);
    Split(IdLine, v);
    Split(dec, c);
    Split(NodeClose, rest);
    assert u[0] == IdLine[0];
    LineBeforeNewline(addr, u);
    DigitsBeforeClose(id, rest);
    DecimalRoundTrip(id);
  }

  lemma Split(p: string, x: string)
    ensures p <= p + x && (p + x)[..|p|] == p && (p + x)[|p|..] == x
  {
  }

  /** A node block is not the footer: they differ in their second
      character. */
  lemma NodeBlockNotFooter(addr: string, id: nat, rest: string)
    ensures NodeBlock(addr, id) + rest != Footer
  {
    var s := NodeBlock(addr, id) + rest;
    assert s[1] == NodeOpen[1];
    assert Footer[1] == NodelistClose[1];
  }

  /** One node block is read as its address and identifier, and reading goes
      on after it. */
  lemma ParseNodeBlock(addr: string, id: nat, rest: string)
    requires '\n' !in addr
    ensures ParseNodes(NodeBlock(addr, id) + rest) ==
            match ParseNodes(rest)
            case None => None
            case Some(nodes) => Some([ConfigNode(addr, id)] + nodes)
  {
    NodeBlockNotFooter(addr, id, rest);
    ParseNodeOf(addr, id, rest);
  }

  lemma {:induction false} ParseNodeBlocks(addrs: seq<string>, i: nat)
    requires OneLine(addrs)
    ensures ParseNodes(NodeBlocks(addrs, i) + Footer).Some?
    ensures Numbered(ParseNodes(NodeBlocks(addrs, i) + Footer).value, addrs, i)
    decreases |addrs|
  {
    if addrs == [] {
      assert NodeBlocks(addrs, i) + Footer == Footer;
    } else {
      OneLineTail(addrs);
      ParseNodeBlocks(addrs[1..], i + 1);
      ParseNodeBlocksCons(addrs, i);
    }
  }

  lemma ParseNodeBlocksCons(addrs: seq<string>, i: nat)
    requires |addrs| > 0 && '\n' !in addrs[0]
    requires ParseNodes(NodeBlocks(addrs[1..], i + 1) + Footer).Some?
    requires Numbered(ParseNodes(NodeBlocks(addrs[1..], i + 1) + Footer).value, addrs[1..], i + 1)
    ensures ParseNodes(NodeBlocks(addrs, i) + Footer).Some?
    ensures Numbered(ParseNodes(NodeBlocks(addrs, i) + Footer).value, addrs, i)
  {
    var b := NodeBlock(addrs[0], i + 1);
    var bs := NodeBlocks(addrs[1..], i + 1);
    ParseNodeBlocksStep(addrs, i, bs + Footer);
    assert NodeBlocks(addrs, i) == b + bs;
    Assoc(b, bs, Footer);
  }

  lemma Assoc(a: string, b: string, c: string)
    ensures (a + b) + c == a + (b + c)
  {
  }

  /** One more block in front of blocks that parse to the numbered rest of
      the addresses. */
  lemma ParseNodeBlocksStep(addrs: seq<string>, i: nat, rest: string)
    requires |addrs| > 0 && '\n' !in addrs[0]
    requires ParseNodes(rest).Some? && Numbered(ParseNodes(rest).value, addrs[1..], i + 1)
    ensures ParseNodes(NodeBlock(addrs[0], i + 1) + rest).Some?
    ensures Numbered(ParseNodes(NodeBlock(addrs[0], i + 1) + rest).value, addrs, i)
  {
    ParseNodeBlock(addrs[0], i + 1, rest);
    NumberedCons(ParseNodes(rest).value, addrs, i);
  }

  lemma OneLineTail(addrs: seq<string>)
    requires OneLine(addrs) && |addrs| > 0
    ensures OneLine(addrs[1..])
  {
    forall k | 0 <= k < |addrs[1..]| ensures '\n' !in addrs[1..][k] {
      assert addrs[1..][k] == addrs[k + 1];
    }
  }

  /** The first address numbered `i + 1` in front of the rest numbered from
      `i + 2`. */
  lemma NumberedCons(tail: seq<ConfigNode>, addrs: seq<string>, i: nat)
    requires |addrs| > 0 && Numbered(tail, addrs[1..], i + 1)
    ensures Numbered([ConfigNode(addrs[0], i + 1)] + tail, addrs, i)
  {
    var nodes := [ConfigNode(addrs[0], i + 1)] + tail;
    forall k | 0 <= k < |addrs| ensures nodes[k] == ConfigNode(addrs[k], i + k + 1) {
      if k > 0 {
        assert nodes[k] == tail[k - 1];
        assert addrs[1..][k - 1] == addrs[k];
      }
    }
  }

  /** A file rendered from a name and addresses on one line each reads back
      as that name and those addresses, numbered 1, 2, ... in order. */
  lemma ConfigRoundTrip(nodeIPs: seq<string>, clusterName: string)
    requires '\n' !in clusterName && OneLine(nodeIPs)
    ensures ParseConfig(GenerateConfig(nodeIPs, clusterName)).Some?
    ensures ParseConfig(GenerateConfig(nodeIPs, clusterName)).value.name == clusterName
    ensures Numbered(ParseConfig(GenerateConfig(nodeIPs, clusterName)).value.nodes, nodeIPs, 0)
  {
    var body := NodeBlocks(nodeIPs, 0) + Footer;
    var u := TotemTail + body;
    var t := clusterName + u;
    var c := Header + t;
    Split(Header, t);
    Split(clusterName, u);
    Split(TotemTail, body);
    assert u[0] == TotemTail[0] == "\n"[0];
    LineBeforeNewline(clusterName, u);
    ParseNodeBlocks(nodeIPs, 0);
  }

  /** The identifiers are 1 to the number of addresses, each used once. */
  lemma NodeIdsDistinct(nodes: seq<ConfigNode>, addrs: seq<string>)
    requires Numbered(nodes, addrs, 0)
    ensures forall k :: 0 <= k < |nodes| ==> 1 <= nodes[k].id <= |addrs|
    ensures forall j, k :: 0 <= j < k < |nodes| ==> nodes[j].id != nodes[k].id
  {
    forall j, k | 0 <= j < k < |nodes| ensures nodes[j].id != nodes[k].id {
      assert nodes[j].id == j + 1 && nodes[k].id == k + 1;
    }
  }

  /** Adding an address at the end adds one block at the end of the node
      list, numbered one past the others, and leaves the rest unchanged. */
  lemma {:induction false} NodeBlocksAppend(addrs: seq<string>, a: string, i: nat)
    ensures NodeBlocks(addrs + [a], i) == NodeBlocks(addrs, i) + NodeBlock(a, i + |addrs| + 1)
    decreases |addrs|
  {
    if addrs == [] {
      assert [a][1..] == [];
      assert NodeBlocks([a], i) == NodeBlock(a, i + 1) + "";
    } else {
      assert (addrs + [a])[0] == addrs[0];
      assert (addrs + [a])[1..] == addrs[1..] + [a];
      NodeBlocksAppend(addrs[1..], a, i + 1);
    }
  }

  /** With no addresses the node list is empty: `nodelist {` is closed on
      the next line. */
  lemma EmptyNodeList(clusterName: string)
    ensures GenerateConfig([], clusterName) ==
      Header + (clusterName + ("\n" + (TotemSettings + ((NodelistOpen + NodelistClose) + (QuorumSection + LoggingSection)))))
    ensures NodelistOpen + NodelistClose == "nodelist {\n}"
  {
    EmptyNodelistText();
    assert NodeBlocks([], 0) + Footer == Footer;
    Regroup("\n", TotemSettings, NodelistOpen, NodelistClose, QuorumSection + LoggingSection);
  }

  lemma Regroup(a: string, b: string, c: string, d: string, e: string)
    ensures (a + (b + c)) + (d + e) == a + (b + ((c + d) + e))
  {
  }

  lemma EmptyNodelistText()
    ensures NodelistOpen + NodelistClose == "nodelist {\n}"
  {
  }

  /** The file rendered with no addresses reads back with no nodes. */
  lemma EmptyNodeListParse(clusterName: string)
    requires '\n' !in clusterName
    ensures ParseConfig(GenerateConfig([], clusterName)) == Some(ClusterConfig(clusterName, []))
  {
    ConfigRoundTrip([], clusterName);
  }
}
