/**
 * Page tabs: the children of a page-tabs container are grouped under the
 * most recent H2 header, every kept child is also listed under "All", and
 * the tabs are drawn only when enough headers were found.
 */
module PageTabbing {
  import Text

  /** A child node of the container: a text node, an element with its tag and first text, or any other node. */
  datatype Node = TextNode(data: string) | Element(tagName: string, headerText: string) | OtherNode(nodeName: string)

  /** Text nodes holding only white space are skipped. */
  predicate Blank(n: Node) {
    n.TextNode? && Text.JsTrim(n.data) == []
  }

  predicate IsHeader(n: Node) {
    n.Element? && n.tagName == "H2"
  }

  /** `allow_all_headers` and `page_tabbable_topics`: which header texts open a tab of their own. */
  datatype Topics = Topics(allowAll: bool, tabbable: set<string>)

  predicate Tabbable(topics: Topics, header: string) {
    topics.allowAll || header in topics.tabbable
  }

  /** `pagetabs_header_dict`, `pagetabs_header_ordering` and the header being filled. */
  datatype TabState = TabState(dict: map<string, seq<Node>>, ordering: seq<string>, current: string)

  predicate Ready(t: TabState) {
    "All" in t.dict && "Other" in t.dict && t.current in t.dict
  }

  /** The globals as `page_tab_generation_main` resets them before each container. */
  const Initial := TabState(map["All" := [], "Other" := []], [], "Other")

  /** One pass of the loop in `populate_page_tab_variables`. */
  function Step(t: TabState, n: Node, topics: Topics): (r: TabState)
    requires Ready(t)
    ensures Ready(r)
    ensures t.dict.Keys <= r.dict.Keys
  {
    if Blank(n) then t
    else
      var u :=
        if !IsHeader(n) then t
        else if Tabbable(topics, n.headerText) then TabState(t.dict[n.headerText := []], t.ordering + [n.headerText], n.headerText)
        else t.(current := "Other");
      var d := u.dict["All" := u.dict["All"] + [n]];
      TabState(d[u.current := d[u.current] + [n]], u.ordering, u.current)
  }

  /** The loop over the children, in document order. */
  function Run(start: TabState, nodes: seq<Node>, topics: Topics): (r: TabState)
    requires Ready(start)
    ensures Ready(r)
    ensures start.dict.Keys <= r.dict.Keys
  {
    if nodes == [] then start
    else Step(Run(start, nodes[..|nodes| - 1], topics), nodes[|nodes| - 1], topics)
  }

  /** The final ordering: "Other" is listed once more when anything was filed under it. */
  function Finish(t: TabState): seq<string>
    requires Ready(t)
  {
    t.ordering + (if t.dict["Other"] != [] then ["Other"] else [])
  }

  lemma RunSnoc(start: TabState, nodes: seq<Node>, n: Node, topics: Topics)
    requires Ready(start)
    ensures Run(start, nodes + [n], topics) == Step(Run(start, nodes, topics), n, topics)
  {
    assert (nodes + [n])[..|nodes|] == nodes;
  }

  /** Running one child further over a list of children is one more step. */
  lemma RunPrefix(start: TabState, nodes: seq<Node>, k: nat, topics: Topics)
    requires Ready(start) && k < |nodes|
    ensures Run(start, nodes[..k + 1], topics) == Step(Run(start, nodes[..k], topics), nodes[k], topics)
  {
    assert nodes[..k + 1] == nodes[..k] + [nodes[k]];
    RunSnoc(start, nodes[..k], nodes[k], topics);
  }

  /** The texts of the header children that open a tab, in document order, repeats included. */
  function Headers(nodes: seq<Node>, topics: Topics): seq<string> {
    if nodes == [] then []
    else
      var n := nodes[|nodes| - 1];
      Headers(nodes[..|nodes| - 1], topics) + (if IsHeader(n) && Tabbable(topics, n.headerText) then [n.headerText] else [])
  }

  /** The children that are not blank, in document order. */
  function KeptNodes(nodes: seq<Node>): seq<Node> {
    if nodes == [] then []
    else KeptNodes(nodes[..|nodes| - 1]) + (if Blank(nodes[|nodes| - 1]) then [] else [nodes[|nodes| - 1]])
  }

  /** The header in force after the children: the last H2's text if it opens a tab, "Other" after any other H2, `before` when there is none. */
  function LatestHeader(nodes: seq<Node>, topics: Topics, before: string): string {
    if nodes == [] then before
    else
      var n := nodes[|nodes| - 1];
      if IsHeader(n) then (if Tabbable(topics, n.headerText) then n.headerText else "Other")
      else LatestHeader(nodes[..|nodes| - 1], topics, before)
  }

  /** `x` is filed under `header`. */
  predicate Listed(t: TabState, header: string, x: Node) {
    header in t.dict && x in t.dict[header]
  }

  /** The ordering lists every tab-opening header in document order, a repeated header once per occurrence. */
  lemma {:induction false} OrderingListsHeaders(start: TabState, nodes: seq<Node>, topics: Topics)
    requires Ready(start)
    ensures Run(start, nodes, topics).ordering == start.ordering + Headers(nodes, topics)
  {
    if nodes != [] {
      OrderingListsHeaders(start, nodes[..|nodes| - 1], topics);
    }
  }

  /** The header being filled is always the most recent H2's. */
  lemma {:induction false} CurrentIsLatestHeader(start: TabState, nodes: seq<Node>, topics: Topics)
    requires Ready(start)
    ensures Run(start, nodes, topics).current == LatestHeader(nodes, topics, start.current)
  {
    if nodes != [] {
      CurrentIsLatestHeader(start, nodes[..|nodes| - 1], topics);
    }
  }

  /** Unless a header is itself called "All", the "All" list gains every kept child, in document order. */
  lemma {:induction false} AllCollectsKept(start: TabState, nodes: seq<Node>, topics: Topics)
    requires Ready(start) && start.current != "All"
    requires forall n :: n in nodes && IsHeader(n) ==> n.headerText != "All"
    ensures Run(start, nodes, topics).dict["All"] == start.dict["All"] + KeptNodes(nodes)
    ensures Run(start, nodes, topics).current != "All"
  {
    if nodes != [] {
      var init := nodes[..|nodes| - 1];
      assert forall n :: n in init ==> n in nodes;
      assert nodes[|nodes| - 1] in nodes;
      AllCollectsKept(start, init, topics);
      StepAll(Run(start, init, topics), nodes[|nodes| - 1], topics);
    }
  }

  /** A kept child stays under the header in force when it was read, as long as no later header of that name clears it. */
  lemma {:induction false} ChildStaysUnderHeader(start: TabState, nodes: seq<Node>, topics: Topics, k: nat)
    requires Ready(start) && k < |nodes| && !Blank(nodes[k])
    requires var h := LatestHeader(nodes[..k + 1], topics, start.current);
             forall j :: k < j < |nodes| ==> !(IsHeader(nodes[j]) && Tabbable(topics, nodes[j].headerText) && nodes[j].headerText == h)
    ensures Listed(Run(start, nodes, topics), LatestHeader(nodes[..k + 1], topics, start.current), nodes[k])
  {
    var h := LatestHeader(nodes[..k + 1], topics, start.current);
    var init := nodes[..|nodes| - 1];
    if |nodes| == k + 1 {
      assert nodes[..k + 1] == nodes;
      CurrentIsLatestHeader(start, nodes, topics);
      StepFilesUnderCurrent(Run(start, init, topics), nodes[k], topics);
    } else {
      assert init[..k + 1] == nodes[..k + 1];
      ChildStaysUnderHeader(start, init, topics, k);
      StepKeepsListed(Run(start, init, topics), nodes[|nodes| - 1], topics, h, nodes[k]);
    }
  }

  /** A kept node is filed under the header in force after it. */
  lemma StepFilesUnderCurrent(t: TabState, n: Node, topics: Topics)
    requires Ready(t) && !Blank(n)
    ensures Listed(Step(t, n, topics), Step(t, n, topics).current, n)
  {
  }

  /** A step keeps every filing except under the header it clears. */
  lemma StepKeepsListed(t: TabState, n: Node, topics: Topics, h: string, x: Node)
    requires Ready(t) && Listed(t, h, x)
    requires !(IsHeader(n) && Tabbable(topics, n.headerText) && n.headerText == h)
    ensures Listed(Step(t, n, topics), h, x)
  {
  }

  /** A step files nothing but the node it reads, and that only when it is kept. */
  lemma StepFilesOnlyItsNode(t: TabState, n: Node, topics: Topics, h: string, x: Node)
    requires Ready(t) && Listed(Step(t, n, topics), h, x)
    ensures Listed(t, h, x) || (x == n && !Blank(n))
  {
    if !Blank(n) {
      var u :=
        if !IsHeader(n) then t
        else if Tabbable(topics, n.headerText) then TabState(t.dict[n.headerText := []], t.ordering + [n.headerText], n.headerText)
        else t.(current := "Other");
      assert forall k | k in u.dict :: u.dict[k] == [] || (k in t.dict && u.dict[k] == t.dict[k]);
      var d := u.dict["All" := u.dict["All"] + [n]];
      assert Step(t, n, topics).dict == d[u.current := d[u.current] + [n]];
    }
  }

  /** Below "All", a step appends the node when it is kept. */
  lemma StepAll(t: TabState, n: Node, topics: Topics)
    requires Ready(t) && t.current != "All"
    requires IsHeader(n) ==> n.headerText != "All"
    ensures Step(t, n, topics).dict["All"] == t.dict["All"] + (if Blank(n) then [] else [n])
    ensures Step(t, n, topics).current != "All"
  {
  }

  /** Starting from the reset globals, every listed node is a kept child. */
  lemma {:induction false} OnlyKeptChildrenListed(nodes: seq<Node>, topics: Topics)
    ensures forall h, x :: Listed(Run(Initial, nodes, topics), h, x) ==> x in nodes && !Blank(x)
  {
    if nodes != [] {
      var init := nodes[..|nodes| - 1];
      OnlyKeptChildrenListed(init, topics);
      forall h, x | Listed(Run(Initial, nodes, topics), h, x)
        ensures x in nodes && !Blank(x)
      {
        StepFilesOnlyItsNode(Run(Initial, init, topics), nodes[|nodes| - 1], topics, h, x);
        if Listed(Run(Initial, init, topics), h, x) {
          assert x in init;
        }
      }
    }
  }

  /** The header names the tab gate counts: the ordering without its first "Other" (`indexOf` then `splice`). */
  function WithoutFirstOther(ordering: seq<string>): (r: seq<string>)
    ensures "Other" in ordering ==> |r| == |ordering| - 1
    ensures "Other" !in ordering ==> r == ordering
  {
    if ordering == [] then []
    else if ordering[0] == "Other" then ordering[1..]
    else [ordering[0]] + WithoutFirstOther(ordering[1..])
  }

  /** The gate in `generate_page_tabs` as written: at least two entries besides one "Other". */
  predicate TabGateAsWritten(ordering: seq<string>) {
    |WithoutFirstOther(ordering)| >= 2
  }

  /** The distinct header names other than "Other". */
  function NamedTabs(ordering: seq<string>): set<string> {
    set h | h in ordering && h != "Other"
  }

  /** The gate as its comments describe it: at least two different header names besides "Other". */
  predicate TabGate(ordering: seq<string>) {
    |NamedTabs(ordering)| >= 2
  }

  /** The corrected gate opens exactly when two different non-"Other" names are listed. */
  lemma TabGateMeansTwoNames(ordering: seq<string>)
    ensures TabGate(ordering) <==> exists a, b :: a in ordering && b in ordering && a != b && a != "Other" && b != "Other"
  {
    var s := NamedTabs(ordering);
    if TabGate(ordering) {
      var a :| a in s;
      var rest := s - {a};
      assert |rest| == |s| - 1;
      var b :| b in rest;
    } else if exists a, b :: a in ordering && b in ordering && a != b && a != "Other" && b != "Other" {
      var a, b :| a in ordering && b in ordering && a != b && a != "Other" && b != "Other";
      assert {a, b} <= s;
      assert |{a, b}| == 2;
      SubsetCard({a, b}, s);
    }
  }

  lemma SubsetCard(a: set<string>, b: set<string>)
    requires a <= b
    ensures |a| <= |b|
  {
    assert b == a + (b - a);
  }

  /** Two H2s with the same name open tabs as written, though there is one name, and the first section is cleared from its tab. */
  lemma RepeatedHeaderOpensTabs(first: Node, second: Node)
    requires !Blank(first) && !IsHeader(first) && !Blank(second) && !IsHeader(second)
    ensures var nodes := [Element("H2", "Intro"), first, Element("H2", "Intro"), second];
            var t := Run(Initial, nodes, Topics(true, {}));
            Finish(t) == ["Intro", "Intro"]
            && TabGateAsWritten(Finish(t)) && !TabGate(Finish(t))
            && "Intro" in t.dict && t.dict["Intro"] == [Element("H2", "Intro"), second]
  {
    var h := Element("H2", "Intro");
    var nodes := [h, first, h, second];
    var t := Run(Initial, nodes, Topics(true, {}));
    RepeatedHeaderRun(first, second);
    assert Finish(t) == ["Intro", "Intro"];
    OneName();
  }

  lemma RepeatedHeaderRun(first: Node, second: Node)
    requires !Blank(first) && !IsHeader(first) && !Blank(second) && !IsHeader(second)
    ensures var t := Run(Initial, [Element("H2", "Intro"), first, Element("H2", "Intro"), second], Topics(true, {}));
            "Intro" in t.dict && t.dict["Intro"] == [Element("H2", "Intro"), second] && t.dict["Other"] == [] && t.ordering == ["Intro", "Intro"]
  {
    var h := Element("H2", "Intro");
    var topics := Topics(true, {});
    RunFour(Initial, h, first, h, second, topics);
    RepeatedHeaderSteps(first, second);
  }

  /** `RepeatedHeaderRun` as four steps. */
  lemma RepeatedHeaderSteps(first: Node, second: Node)
    requires !Blank(first) && !IsHeader(first) && !Blank(second) && !IsHeader(second)
    ensures var h := Element("H2", "Intro");
            var topics := Topics(true, {});
            var t := Step(Step(Step(Step(Initial, h, topics), first, topics), h, topics), second, topics);
            "Intro" in t.dict && t.dict["Intro"] == [h, second] && t.dict["Other"] == [] && t.ordering == ["Intro", "Intro"]
  {
    assert "Intro" !in {"All", "Other"} by {
      assert "Intro"[0] != "All"[0] && "Intro"[0] != "Other"[0];
    }
    HeaderTwiceSteps(Initial, Element("H2", "Intro"), first, second, Topics(true, {}));
  }

  /** A header, a plain node, the same header again and a plain node: the header's list holds only the second section. */
  lemma HeaderTwiceSteps(t0: TabState, h: Node, first: Node, second: Node, topics: Topics)
    requires Ready(t0) && IsHeader(h) && Tabbable(topics, h.headerText) && h.headerText !in {"All", "Other"}
    requires !Blank(first) && !IsHeader(first) && !Blank(second) && !IsHeader(second)
    ensures var t := Step(Step(Step(Step(t0, h, topics), first, topics), h, topics), second, topics);
            h.headerText in t.dict && t.dict[h.headerText] == [h, second] && t.dict["Other"] == t0.dict["Other"]
            && t.ordering == t0.ordering + [h.headerText, h.headerText]
  {
    var t1 := Step(t0, h, topics);
    StepHeader(t0, h, topics);
    var t2 := Step(t1, first, topics);
    StepPlain(t1, first, topics);
    var t3 := Step(t2, h, topics);
    StepHeader(t2, h, topics);
    StepPlain(t3, second, topics);
    assert t0.ordering + [h.headerText] + [h.headerText] == t0.ordering + [h.headerText, h.headerText];
  }

  /** Running over four nodes is four steps. */
  lemma RunFour(start: TabState, a: Node, b: Node, c: Node, d: Node, topics: Topics)
    requires Ready(start)
    ensures Run(start, [a, b, c, d], topics) == Step(Step(Step(Step(start, a, topics), b, topics), c, topics), d, topics)
  {
    assert [a] == [] + [a] && [a, b] == [a] + [b] && [a, b, c] == [a, b] + [c] && [a, b, c, d] == [a, b, c] + [d];
    RunSnoc(start, [], a, topics);
    RunSnoc(start, [a], b, topics);
    RunSnoc(start, [a, b], c, topics);
    RunSnoc(start, [a, b, c], d, topics);
  }

  lemma OneName()
    ensures |NamedTabs(["Intro", "Intro"])| == 1
  {
    assert NamedTabs(["Intro", "Intro"]) == {"Intro"};
  }

  /** A tab-opening header clears its own list and files itself there alone. */
  lemma StepHeader(t: TabState, n: Node, topics: Topics)
    requires Ready(t) && IsHeader(n) && Tabbable(topics, n.headerText) && n.headerText !in {"All", "Other"}
    ensures var r := Step(t, n, topics);
            r.dict[n.headerText] == [n] && r.dict["Other"] == t.dict["Other"]
            && r.current == n.headerText && r.ordering == t.ordering + [n.headerText]
  {
    assert !Blank(n);
  }

  /** Any other kept node is appended under the header in force. */
  lemma StepPlain(t: TabState, n: Node, topics: Topics)
    requires Ready(t) && !IsHeader(n) && !Blank(n) && t.current !in {"All", "Other"}
    ensures var r := Step(t, n, topics);
            r.dict[t.current] == t.dict[t.current] + [n] && r.dict["Other"] == t.dict["Other"]
            && r.current == t.current && r.ordering == t.ordering
  {
  }

  /** The corrected gate agrees with the one written whenever no header name repeats and "Other" appears at most once. */
  lemma {:induction false} GatesAgreeWithoutRepeats(ordering: seq<string>)
    requires forall i, j :: 0 <= i < j < |ordering| ==> ordering[i] != ordering[j]
    ensures TabGateAsWritten(ordering) <==> TabGate(ordering)
  {
    DistinctCount(ordering);
  }

  /** Without repeats, the named tabs are as many as the entries besides "Other". */
  lemma {:induction false} DistinctCount(ordering: seq<string>)
    requires forall i, j :: 0 <= i < j < |ordering| ==> ordering[i] != ordering[j]
    ensures |NamedTabs(ordering)| == |WithoutFirstOther(ordering)|
  {
    if ordering != [] {
      var rest := ordering[1..];
      DistinctCount(rest);
      assert ordering[0] !in rest;
      if ordering[0] == "Other" {
        assert NamedTabs(ordering) == NamedTabs(rest);
        assert "Other" !in rest;
      } else {
        assert NamedTabs(ordering) == {ordering[0]} + NamedTabs(rest);
      }
    }
  }

  /** The page-tab globals of one container. */
  class PageTabs {
    var headerDict: map<string, seq<Node>>
    var ordering: seq<string>
    var generateTabs: bool

    /** The reset `page_tab_generation_main` performs before each container. */
    constructor ()
      ensures headerDict == Initial.dict && ordering == Initial.ordering && generateTabs
    {
      headerDict := map["All" := [], "Other" := []];
      ordering := [];
      generateTabs := true;
    }

    /** `populate_page_tab_variables`: files each kept child under "All" and under the header in force. */
    method PopulatePageTabVariables(children: seq<Node>, topics: Topics)
      requires "All" in headerDict && "Other" in headerDict
      modifies this
      ensures var t := Run(TabState(old(headerDict), old(ordering), "Other"), children, topics);
              headerDict == t.dict && ordering == Finish(t)
      ensures generateTabs == old(generateTabs)
    {
      ghost var start := TabState(headerDict, ordering, "Other");
      var current := FileChildren(children, topics);
      ghost var t := Run(start, children, topics);
      assert headerDict == t.dict && ordering == t.ordering;
      if headerDict["Other"] != [] {
        ordering := ordering + ["Other"];
      }
    }

    /** The loop of `populate_page_tab_variables` over the children, from the reset header "Other". */
    method FileChildren(children: seq<Node>, topics: Topics) returns (current: string)
      requires "All" in headerDict && "Other" in headerDict
      modifies this
      ensures TabState(headerDict, ordering, current) == Run(TabState(old(headerDict), old(ordering), "Other"), children, topics)
      ensures generateTabs == old(generateTabs)
    {
      ghost var start := TabState(headerDict, ordering, "Other");
      current := "Other";
      for k := 0 to |children|
        invariant TabState(headerDict, ordering, current) == Run(start, children[..k], topics)
        invariant generateTabs == old(generateTabs)
      {
        current := FileChild(children[k], current, topics);
        RunPrefix(start, children, k, topics);
      }
      assert children[..|children|] == children;
    }

    /** One pass of the loop: file `n` under "All" and under the header in force, which an H2 first changes. */
    method FileChild(n: Node, current: string, topics: Topics) returns (next: string)
      requires Ready(TabState(headerDict, ordering, current))
      modifies this
      ensures TabState(headerDict, ordering, next) == Step(TabState(old(headerDict), old(ordering), current), n, topics)
      ensures generateTabs == old(generateTabs)
    {
      next := current;
      if !(n.TextNode? && Text.JsTrim(n.data) == []) {
        if n.Element? && n.tagName == "H2" {
          next := n.headerText;
          if topics.allowAll || next in topics.tabbable {
            headerDict := headerDict[next := []];
            ordering := ordering + [next];
          } else {
            next := "Other";
          }
        }
        headerDict := headerDict["All" := headerDict["All"] + [n]];
        headerDict := headerDict[next := headerDict[next] + [n]];
      }
    }

    /** The gate of `generate_page_tabs`, counting different header names besides "Other". */
    method GeneratePageTabs() returns (generate: bool)
      modifies this
      ensures generate == generateTabs == TabGate(ordering)
      ensures headerDict == old(headerDict) && ordering == old(ordering)
    {
      generateTabs := |NamedTabs(ordering)| >= 2;
      generate := generateTabs;
    }
  }

  /** `slugify_text`: lower case, every space a dash. */
  function SlugifyText(text: string): (r: string)
    ensures |r| == |text|
    ensures ' ' !in r
    ensures forall i :: 0 <= i < |text| ==> r[i] == (if text[i] == ' ' then '-' else Text.LowerChar(text[i]))
  {
    if text == [] then []
    else [if text[0] == ' ' then '-' else Text.LowerChar(text[0])] + SlugifyText(text[1..])
  }

  /** A slug is its own slug. */
  lemma SlugifyIdempotent(text: string)
    ensures SlugifyText(SlugifyText(text)) == SlugifyText(text)
  {
    var s := SlugifyText(text);
    assert forall i :: 0 <= i < |s| ==> Text.LowerChar(Text.LowerChar(text[i])) == Text.LowerChar(text[i]);
  }
}
