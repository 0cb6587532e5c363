/** Status messages shown at the top of a page: the type check and the item each message container receives. */
module StatusMessages {
  import opened Wrappers
  import Text

  /** The message types the page styles, in the order they are checked. */
  const StatusTypes: seq<string> := ["primary", "secondary", "info", "success", "warning", "error", "danger"]

  /** `String(status_type).trim().toLowerCase()`, given the `String(...)` rendering. */
  function NormalizeStatus(raw: string): string {
    Text.Lower(Text.JsTrim(raw))
  }

  /** The string returned for an unknown type (its spelling kept as the page shows it). */
  function UnknownStatus(statusType: string): string {
    "Unknown status type. Recieved \"" + statusType + "\"."
  }

  /** The `<li class="message TYPE">` element with its text paragraph. */
  datatype MessageItem = MessageItem(className: string, message: string)

  function NewMessage(statusType: string, message: string): MessageItem {
    MessageItem("message " + statusType, message)
  }

  /** The message containers on the page, each with the items it lists. */
  class StatusArea {
    var containers: seq<seq<MessageItem>>

    constructor (initial: seq<seq<MessageItem>>)
      ensures containers == initial
    {
      containers := initial;
    }

    /**
     * `generateStatusMessage`: an unknown type returns the error string and
     * changes nothing; a known type appends the new item to every container
     * and returns nothing.
     */
    method GenerateStatusMessage(message: string, rawType: string) returns (r: Option<string>)
      modifies this
      ensures NormalizeStatus(rawType) !in StatusTypes ==> r == Some(UnknownStatus(NormalizeStatus(rawType))) && containers == old(containers)
      ensures NormalizeStatus(rawType) in StatusTypes ==>
                r.None? && |containers| == |old(containers)|
                && forall i :: 0 <= i < |containers| ==> containers[i] == old(containers)[i] + [NewMessage(NormalizeStatus(rawType), message)]
    {
      var statusType := NormalizeStatus(rawType);
      if statusType !in StatusTypes {
        return Some(UnknownStatus(statusType));
      }
      AppendToEach(NewMessage(statusType, message));
      r := None;
    }

    /** The `each` loop: every container receives its own copy of the item. */
    method AppendToEach(item: MessageItem)
      modifies this
      ensures |containers| == |old(containers)|
      ensures forall i :: 0 <= i < |containers| ==> containers[i] == old(containers)[i] + [item]
    {
      var k := 0;
      while k < |containers|
        invariant 0 <= k <= |containers| && |containers| == |old(containers)|
        invariant forall i :: 0 <= i < k ==> containers[i] == old(containers)[i] + [item]
        invariant forall i :: k <= i < |containers| ==> containers[i] == old(containers)[i]
      {
        containers := containers[k := containers[k] + [item]];
        k := k + 1;
      }
    }
  }

  /**
   * The containers after the loop as written: the one element is appended
   * to each container in turn, and appending an element that is already in
   * the page moves it, so only the last container keeps it.
   */
  function AppendMovedAsWritten(containers: seq<seq<MessageItem>>, item: MessageItem): (r: seq<seq<MessageItem>>)
    ensures |r| == |containers|
    ensures forall i :: 0 <= i < |containers| - 1 ==> r[i] == containers[i]
    ensures containers != [] ==> r[|r| - 1] == containers[|containers| - 1] + [item]
  {
    if containers == [] then []
    else containers[..|containers| - 1] + [containers[|containers| - 1] + [item]]
  }

  /** With two containers, the first never shows the new message. */
  lemma FirstContainerMissesMessage(first: seq<MessageItem>, second: seq<MessageItem>, item: MessageItem)
    ensures AppendMovedAsWritten([first, second], item)[0] == first
    ensures AppendMovedAsWritten([first, second], item)[1] == second + [item]
  {
  }

  /** A known type keeps its spelling under surrounding white space and upper case does not matter. */
  lemma {:induction false} PaddedTypeAccepted(pre: string, statusType: string, post: string)
    requires statusType in StatusTypes
    requires forall i :: 0 <= i < |pre| ==> Text.IsJsSpace(pre[i])
    requires forall i :: 0 <= i < |post| ==> Text.IsJsSpace(post[i])
    ensures NormalizeStatus(pre + statusType + post) == statusType
  {
    TypesAreTrimmedLowerCase(statusType);
    PaddedWord(pre, statusType, post);
  }

  predicate LowerLetters(s: string) {
    forall i :: 0 <= i < |s| ==> 'a' <= s[i] <= 'z'
  }

  /** Each accepted type is a non-empty run of lower-case letters, which lower-casing leaves alone. */
  lemma TypesAreTrimmedLowerCase(statusType: string)
    requires statusType in StatusTypes
    ensures statusType != [] && LowerLetters(statusType)
    ensures Text.Lower(statusType) == statusType
  {
    var k :| 0 <= k < |StatusTypes| && StatusTypes[k] == statusType;
    TypeAtIsLowerWord(k);
    LowerLettersFixed(statusType);
  }

  /** The accepted type at position `k` is a non-empty run of lower-case letters. */
  lemma TypeAtIsLowerWord(k: nat)
    requires k < |StatusTypes|
    ensures StatusTypes[k] != [] && LowerLetters(StatusTypes[k])
  {
    var w := StatusTypes[k];
    if k == 0 { assert w == "primary"; }
    else if k == 1 { assert w == "secondary"; }
    else if k == 2 { assert w == "info"; }
    else if k == 3 { assert w == "success"; }
    else if k == 4 { assert w == "warning"; }
    else if k == 5 { assert w == "error"; }
    else { assert w == "danger"; }
  }

  lemma LowerLettersFixed(s: string)
    requires LowerLetters(s)
    ensures Text.Lower(s) == s
  {
    assert forall i :: 0 <= i < |s| ==> Text.LowerChar(s[i]) == s[i];
  }

  lemma PaddedWord(pre: string, w: string, post: string)
    requires w != [] && LowerLetters(w)
    requires forall i :: 0 <= i < |pre| ==> Text.IsJsSpace(pre[i])
    requires forall i :: 0 <= i < |post| ==> Text.IsJsSpace(post[i])
    ensures NormalizeStatus(pre + w + post) == w
  {
    TrimAround(pre, w, post);
    LowerLettersFixed(w);
  }

  /** Trimming removes exactly the white space around a text whose ends are not white space. */
  lemma TrimAround(pre: string, t: string, post: string)
    requires t != [] && !Text.IsJsSpace(t[0]) && !Text.IsJsSpace(t[|t| - 1])
    requires forall i :: 0 <= i < |pre| ==> Text.IsJsSpace(pre[i])
    requires forall i :: 0 <= i < |post| ==> Text.IsJsSpace(post[i])
    ensures Text.JsTrim(pre + t + post) == t
  {
    assert pre + t + post == pre + (t + post);
    TrimStartAfter(pre, t + post);
    TrimEndBefore(t, post);
  }

  /** Trimming the start drops exactly the white space before a non-space character. */
  lemma TrimStartAfter(pre: string, rest: string)
    requires rest != [] && !Text.IsJsSpace(rest[0])
    requires forall i :: 0 <= i < |pre| ==> Text.IsJsSpace(pre[i])
    ensures Text.JsTrimStart(pre + rest) == rest
  {
    var s := pre + rest;
    var a := Text.JsTrimStart(s);
    assert s[|pre|] == rest[0];
    assert |s| - |a| <= |pre|;
  }

  /** Trimming the end drops exactly the white space after a non-space character. */
  lemma TrimEndBefore(rest: string, post: string)
    requires rest != [] && !Text.IsJsSpace(rest[|rest| - 1])
    requires forall i :: 0 <= i < |post| ==> Text.IsJsSpace(post[i])
    ensures Text.JsTrimEnd(rest + post) == rest
  {
    var s := rest + post;
    var b := Text.JsTrimEnd(s);
    assert s[|rest| - 1] == rest[|rest| - 1];
    assert |b| >= |rest|;
  }
}
