/**
 * The argument checks the e-mail helpers run before handing a message to
 * the mail backend: sender fallback, recipient shapes, subject and body.
 */
module EmailUtils {
  import opened Wrappers

  /** The Python values the helpers receive as keyword arguments or settings. */
  datatype PyValue =
    | PyNone
    | PyStr(s: string)
    | PyList(items: seq<PyValue>)
    | PyTuple(elems: seq<PyValue>)
    | PyOther(typeName: string)

  predicate IsNonEmptyStr(v: PyValue) {
    v.PyStr? && v.s != ""
  }

  /** Python's `type(v)` as `format` prints it. */
  function TypeText(v: PyValue): string {
    var name := match v
      case PyNone => "NoneType"
      case PyStr(_) => "str"
      case PyList(_) => "list"
      case PyTuple(_) => "tuple"
      case PyOther(n) => n;
    "<class '" + name + "'>"
  }

  const DjangoDefaultFrom := "webmaster@localhost"

  /** A message ready for the mail backend. */
  datatype Email = Email(sender: PyValue, recipients: seq<string>, subject: string, message: string)

  /**
   * The sender: a non-empty string is used as given; otherwise the
   * `DEFAULT_FROM_EMAIL` setting, unless that is blank or Django's own default.
   */
  function Sender(emailFrom: PyValue, defaultFrom: PyValue): (r: Result<PyValue>)
    ensures IsNonEmptyStr(emailFrom) ==> r == Ok(emailFrom)
    ensures !IsNonEmptyStr(emailFrom) && defaultFrom in {PyStr(""), PyStr(DjangoDefaultFrom)} ==> r == Err(ValueError("Email sender cannot be blank."))
    ensures !IsNonEmptyStr(emailFrom) && defaultFrom !in {PyStr(""), PyStr(DjangoDefaultFrom)} ==> r == Ok(defaultFrom)
  {
    if IsNonEmptyStr(emailFrom) then Ok(emailFrom)
    else if defaultFrom == PyStr("") || defaultFrom == PyStr(DjangoDefaultFrom) then Err(ValueError("Email sender cannot be blank."))
    else Ok(defaultFrom)
  }

  /** Subject and body: a non-string raises ValueError, an empty string TypeError. */
  function SubjectAndMessage(subject: PyValue, message: PyValue): (r: Result<(string, string)>)
    ensures r.Ok? <==> IsNonEmptyStr(subject) && IsNonEmptyStr(message)
    ensures r.Ok? ==> r.value == (subject.s, message.s)
    ensures !subject.PyStr? ==> r == Err(ValueError("Email subject must be a string."))
    ensures subject == PyStr("") ==> r == Err(TypeError("Email subject cannot be blank."))
    ensures IsNonEmptyStr(subject) && !message.PyStr? ==> r == Err(ValueError("Email message must be a string."))
    ensures IsNonEmptyStr(subject) && message == PyStr("") ==> r == Err(TypeError("Email message cannot be blank."))
  {
    if !subject.PyStr? then Err(ValueError("Email subject must be a string."))
    else if subject.s == "" then Err(TypeError("Email subject cannot be blank."))
    else if !message.PyStr? then Err(ValueError("Email message must be a string."))
    else if message.s == "" then Err(TypeError("Email message cannot be blank."))
    else Ok((subject.s, message.s))
  }

  /** `send_single_email`'s checks, in the order it makes them; the result is the message it would send. */
  function SingleEmail(emailFrom: PyValue, emailTo: PyValue, subject: PyValue, message: PyValue, defaultFrom: PyValue): (r: Result<Email>)
    ensures r.Ok? <==> Sender(emailFrom, defaultFrom).Ok? && IsNonEmptyStr(emailTo) && SubjectAndMessage(subject, message).Ok?
    ensures r.Ok? ==> r.value == Email(Sender(emailFrom, defaultFrom).value, [emailTo.s], subject.s, message.s)
    ensures Sender(emailFrom, defaultFrom).Err? ==> r == Err(ValueError("Email sender cannot be blank."))
    ensures Sender(emailFrom, defaultFrom).Ok? && !emailTo.PyStr? ==> r == Err(ValueError("Email recipient must be a string."))
    ensures Sender(emailFrom, defaultFrom).Ok? && emailTo == PyStr("") ==> r == Err(ValueError("Email recipient cannot be blank."))
  {
    match Sender(emailFrom, defaultFrom)
    case Err(e) => Err(e)
    case Ok(sender) =>
      if !emailTo.PyStr? then Err(ValueError("Email recipient must be a string."))
      else if emailTo.s == "" then Err(ValueError("Email recipient cannot be blank."))
      else
        match SubjectAndMessage(subject, message)
        case Err(e) => Err(e)
        case Ok(pair) => Ok(Email(sender, [emailTo.s], pair.0, pair.1))
  }

  /** The strings of a list whose every element is a non-empty string. */
  function Strings(items: seq<PyValue>): (r: seq<string>)
    requires forall i :: 0 <= i < |items| ==> IsNonEmptyStr(items[i])
    ensures |r| == |items|
    ensures forall i :: 0 <= i < |items| ==> items[i] == PyStr(r[i]) && r[i] != ""
  {
    if items == [] then []
    else
      assert IsNonEmptyStr(items[0]);
      [items[0].s] + Strings(items[1..])
  }

  /**
   * `send_mass_email`'s recipients: a list or tuple must hold only non-empty
   * strings, a non-empty string becomes a one-element list, anything else is
   * a TypeError.
   */
  function MassRecipients(emailTo: PyValue): (r: Result<seq<string>>)
    ensures (emailTo.PyList? || emailTo.PyTuple?) ==>
              var items := if emailTo.PyList? then emailTo.items else emailTo.elems;
              (r.Ok? <==> forall v :: v in items ==> IsNonEmptyStr(v))
              && (r.Ok? ==> |r.value| == |items| && forall i :: 0 <= i < |items| ==> items[i] == PyStr(r.value[i]))
    ensures emailTo.PyStr? ==> r == if emailTo.s == "" then Err(ValueError("Invalid email recipient. ")) else Ok([emailTo.s])
    ensures emailTo.PyNone? || emailTo.PyOther? ==> r.Err? && r.error.TypeError?
    ensures r.Ok? ==> forall t :: t in r.value ==> t != ""
  {
    match emailTo
    case PyList(items) => ListRecipients(items)
    case PyTuple(items) => ListRecipients(items)
    case PyStr(s) => if s == "" then Err(ValueError("Invalid email recipient. ")) else Ok([s])
    case _ => Err(TypeError("Expected \"email_to\" field to be of type list, tuple, or string. Got " + TypeText(emailTo) + "."))
  }

  function ListRecipients(items: seq<PyValue>): (r: Result<seq<string>>)
    ensures r.Ok? <==> forall v :: v in items ==> IsNonEmptyStr(v)
    ensures r.Ok? ==> |r.value| == |items| && forall i :: 0 <= i < |items| ==> items[i] == PyStr(r.value[i]) && r.value[i] != ""
    ensures r.Err? ==> r == Err(ValueError("Invalid email recipient. "))
  {
    if forall v :: v in items ==> IsNonEmptyStr(v) then
      assert forall i :: 0 <= i < |items| ==> items[i] in items;
      Ok(Strings(items))
    else Err(ValueError("Invalid email recipient. "))
  }

  /** `send_mass_email`'s checks: sender, then recipients, then subject and body. */
  function MassEmail(emailFrom: PyValue, emailTo: PyValue, subject: PyValue, message: PyValue, defaultFrom: PyValue): (r: Result<Email>)
    ensures r.Ok? <==> Sender(emailFrom, defaultFrom).Ok? && MassRecipients(emailTo).Ok? && SubjectAndMessage(subject, message).Ok?
    ensures r.Ok? ==> r.value == Email(Sender(emailFrom, defaultFrom).value, MassRecipients(emailTo).value, subject.s, message.s)
    ensures Sender(emailFrom, defaultFrom).Ok? && MassRecipients(emailTo).Err? ==> r == Err(MassRecipients(emailTo).error)
  {
    match Sender(emailFrom, defaultFrom)
    case Err(e) => Err(e)
    case Ok(sender) =>
      match MassRecipients(emailTo)
      case Err(e) => Err(e)
      case Ok(recipients) =>
        match SubjectAndMessage(subject, message)
        case Err(e) => Err(e)
        case Ok(pair) => Ok(Email(sender, recipients, pair.0, pair.1))
  }

  /** A single recipient string given to the mass helper sends the same message as the single helper. */
  lemma MassOfOneIsSingle(emailFrom: PyValue, to: string, subject: PyValue, message: PyValue, defaultFrom: PyValue)
    requires to != ""
    ensures MassEmail(emailFrom, PyStr(to), subject, message, defaultFrom) == SingleEmail(emailFrom, PyStr(to), subject, message, defaultFrom)
  {
  }

  /** A list of recipient strings is sent to exactly those addresses. */
  lemma {:induction false} MassToListKeepsAddresses(addresses: seq<string>)
    requires forall t :: t in addresses ==> t != ""
    ensures MassRecipients(PyList(seq(|addresses|, i requires 0 <= i < |addresses| => PyStr(addresses[i])))) == Ok(addresses)
  {
    var items := seq(|addresses|, i requires 0 <= i < |addresses| => PyStr(addresses[i]));
    assert forall v :: v in items ==> IsNonEmptyStr(v) by {
      forall v | v in items
        ensures IsNonEmptyStr(v)
      {
        var i :| 0 <= i < |items| && items[i] == v;
        assert addresses[i] in addresses;
      }
    }
    var r := MassRecipients(PyList(items));
    assert |r.value| == |addresses|;
    assert forall i :: 0 <= i < |addresses| ==> r.value[i] == addresses[i] by {
      forall i | 0 <= i < |addresses|
        ensures r.value[i] == addresses[i]
      {
        assert items[i] == PyStr(r.value[i]);
      }
    }
    assert r.value == addresses;
  }

  /** The settings `DEFAULT_FROM_EMAIL` the test helpers accept: a string, neither blank nor Django's default. */
  predicate UsableDefault(defaultFrom: PyValue) {
    IsNonEmptyStr(defaultFrom) && defaultFrom.s != DjangoDefaultFrom
  }

  /** `admin[1]` for one `ADMINS` entry. */
  function SecondItem(admin: PyValue): (r: Result<PyValue>)
    ensures (admin.PyList? && |admin.items| > 1) ==> r == Ok(admin.items[1])
    ensures (admin.PyTuple? && |admin.elems| > 1) ==> r == Ok(admin.elems[1])
    ensures admin.PyNone? || admin.PyOther? ==> r.Err? && r.error.TypeError?
  {
    match admin
    case PyList(items) => if |items| > 1 then Ok(items[1]) else Err(IndexError)
    case PyTuple(items) => if |items| > 1 then Ok(items[1]) else Err(IndexError)
    case PyStr(s) => if |s| > 1 then Ok(PyStr([s[1]])) else Err(IndexError)
    case PyNone => Err(TypeError("'NoneType' object is not subscriptable"))
    case PyOther(name) => Err(TypeError("'" + name + "' object is not subscriptable"))
  }

  /** The loop over `ADMINS`, stopping at the first entry whose address is not a non-empty string. */
  function AdminAddresses(admins: seq<PyValue>): (r: Result<seq<string>>)
    ensures r.Ok? ==> |r.value| == |admins| && forall t :: t in r.value ==> t != ""
    ensures r.Ok? ==> forall i :: 0 <= i < |admins| ==> SecondItem(admins[i]) == Ok(PyStr(r.value[i]))
  {
    if admins == [] then Ok([])
    else
      match AdminAddresses(admins[..|admins| - 1])
      case Err(e) => Err(e)
      case Ok(addresses) =>
        match SecondItem(admins[|admins| - 1])
        case Err(e) => Err(e)
        case Ok(v) =>
          if IsNonEmptyStr(v) then Ok(addresses + [v.s])
          else Err(ValueError("Invalid settings \"ADMINS\" value."))
  }

  /**
   * `test_mass_email`'s checks: the development URLs must be on, the
   * default sender usable and `ADMINS` a non-empty list of entries whose
   * second item is a non-empty address.
   */
  function TestMassEmailRecipients(devUrls: bool, defaultFrom: PyValue, admins: PyValue): (r: Result<seq<string>>)
    ensures !devUrls ==> r == Err(Http404)
    ensures devUrls && !UsableDefault(defaultFrom) ==> r.Err? && r.error.ValueError?
    ensures devUrls && UsableDefault(defaultFrom) && (!admins.PyList? || admins.items == []) ==> r.Err? && r.error.ValueError?
    ensures r.Ok? ==> devUrls && UsableDefault(defaultFrom) && admins.PyList? && r == AdminAddresses(admins.items) && r.value != []
  {
    if !devUrls then Err(Http404)
    else if !UsableDefault(defaultFrom) then Err(ValueError("Invalid settings \"DEFAULT_FROM_EMAIL\" value."))
    else if !admins.PyList? || admins.items == [] then Err(ValueError("Invalid settings \"ADMINS\" value."))
    else AdminAddresses(admins.items)
  }

  /** `test_single_email`'s checks: development URLs on and a usable default sender, which is also the recipient. */
  function TestSingleEmailRecipient(devUrls: bool, defaultFrom: PyValue): (r: Result<string>)
    ensures r.Ok? <==> devUrls && UsableDefault(defaultFrom)
    ensures r.Ok? ==> PyStr(r.value) == defaultFrom
    ensures !devUrls ==> r == Err(Http404)
  {
    if !devUrls then Err(Http404)
    else if !UsableDefault(defaultFrom) then Err(ValueError("Invalid settings DEFAULT_FROM_EMAIL value."))
    else Ok(defaultFrom.s)
  }

  /** Well-formed `ADMINS` entries, `(name, address)` pairs, give their addresses in order. */
  lemma {:induction false} AdminPairsGiveAddresses(names: seq<string>, addresses: seq<string>)
    requires |names| == |addresses|
    requires forall t :: t in addresses ==> t != ""
    ensures AdminAddresses(seq(|names|, i requires 0 <= i < |names| => PyTuple([PyStr(names[i]), PyStr(addresses[i])]))) == Ok(addresses)
  {
    if names != [] {
      var n := |names| - 1;
      var admins := seq(|names|, i requires 0 <= i < |names| => PyTuple([PyStr(names[i]), PyStr(addresses[i])]));
      var init := seq(n, i requires 0 <= i < n => PyTuple([PyStr(names[..n][i]), PyStr(addresses[..n][i])]));
      assert admins[..n] == init;
      assert forall t :: t in addresses[..n] ==> t in addresses;
      AdminPairsGiveAddresses(names[..n], addresses[..n]);
      assert addresses[n] in addresses;
      assert addresses == addresses[..n] + [addresses[n]];
    }
  }

  /** Unless the test helper sends to a valid sender, the single helper raises on the same settings. */
  lemma TestSingleMeetsSingle(devUrls: bool, defaultFrom: PyValue, subject: string, message: string)
    requires TestSingleEmailRecipient(devUrls, defaultFrom).Ok? && subject != "" && message != ""
    ensures SingleEmail(defaultFrom, defaultFrom, PyStr(subject), PyStr(message), defaultFrom).Ok?
  {
  }
}
