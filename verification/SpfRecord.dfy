/** From the TXT records of a domain to the terms of its SPF record. */
module SpfRecord {
  import opened Text

  datatype Code = None | Neutral | Pass | Fail | SoftFail | TempError | PermError

  /** Answer of a TXT query. */
  datatype TxtAnswer = Texts(texts: seq<string>) | NotFound | LookupFailed

  /** The SPF records among the texts of a domain. */
  function SpfRecords(texts: seq<string>): seq<string> {
    if |texts| == 0 then []
    else
      var rest := SpfRecords(texts[..|texts| - 1]);
      var text := Trim(texts[|texts| - 1]);
      if "v=spf1" <= Lower(text) then rest + [text] else rest
  }

  datatype RecordStatus = Record(text: string) | NoRecord | DnsError | Ambiguous

  function SelectRecord(answer: TxtAnswer): RecordStatus {
    match answer
    case NotFound => NoRecord
    case LookupFailed => DnsError
    case Texts(texts) =>
      var found := SpfRecords(texts);
      if |found| > 1 then Ambiguous else if |found| == 1 then Record(found[0]) else NoRecord
  }

  /** A mechanism split at its first colon and at the slashes of both halves. */
  datatype MechanismText = MechanismText(name: string, value: string, cidr: string)

  function ParseMechanism(text: string): MechanismText {
    var raw := Trim(text);
    var i := IndexOf(raw, ':');
    var name0 := if i >= 0 then Lower(Trim(raw[..i])) else Lower(raw);
    var value0 := if i >= 0 then Trim(raw[i + 1..]) else "";
    var j := IndexOf(name0, '/');
    var k := IndexOf(value0, '/');
    MechanismText(
      if j >= 0 then Trim(name0[..j]) else name0,
      if k >= 0 then value0[..k] else value0,
      if k >= 0 then Trim(value0[k + 1..]) else if j >= 0 then name0[j + 1..] else "")
  }

  /** What a mechanism asks for. Compare stands for the mechanisms that compare
      the sending address; all of them but ip4 and ip6 cost a lookup. */
  datatype Mechanism = All | Include(target: string) | Compare(costs: bool, text: MechanismText) | Unknown

  function MechanismOf(m: MechanismText): Mechanism {
    if m.name == "all" then All
    else if m.name == "include" then Include(m.value)
    else if m.name == "ip4" || m.name == "ip6" then Compare(false, m)
    else if m.name == "a" || m.name == "mx" || m.name == "exists" || m.name == "ptr" then Compare(true, m)
    else Unknown
  }

  /** A term of a record: a directive carries the code its qualifier stands for,
      its mechanism and the name a verdict reports for it. */
  datatype Term = Redirect(target: string) | Ignored | Directive(code: Code, mechanism: Mechanism, name: string)

  predicate IsMark(c: char) {
    c == '+' || c == '-' || c == '~' || c == '?'
  }

  function QualifierCode(q: char): Code {
    if q == '+' then Pass else if q == '-' then Fail else if q == '~' then SoftFail else Neutral
  }

  /** The name a verdict reports for the token that decided it. */
  function NameOf(token: string): string {
    var tok := Trim(token);
    if tok == "" then ""
    else
      var bare := if IsMark(tok[0]) then tok[1..] else tok;
      var i := IndexOf(bare, ':');
      if i >= 0 then Lower(Trim(bare[..i])) else Lower(bare)
  }

  function Classify(token: string): Term {
    var tok := Trim(token);
    if tok == "" then Ignored
    else if "redirect=" <= Lower(tok) then Redirect(Trim(tok[|"redirect="|..]))
    else if "exp=" <= Lower(tok) || '=' in tok then Ignored
    else
      var q := if IsMark(tok[0]) then tok[0] else '+';
      var text := if IsMark(tok[0]) then tok[1..] else tok;
      Directive(QualifierCode(q), MechanismOf(ParseMechanism(text)), NameOf(text))
  }

  function TermsOf(tokens: seq<string>): (terms: seq<Term>)
    ensures |terms| == |tokens|
  {
    seq(|tokens|, i requires 0 <= i < |tokens| => Classify(tokens[i]))
  }

  /** What a domain publishes, as far as the evaluation is concerned. */
  datatype Published = Policy(terms: seq<Term>) | Blank | Absent | Failed | Several

  function PublishedIn(answer: TxtAnswer): Published {
    match SelectRecord(answer)
    case NoRecord => Absent
    case DnsError => Failed
    case Ambiguous => Several
    case Record(text) =>
      var tokens := Fields(text);
      if |tokens| == 0 then Blank else Policy(TermsOf(tokens[1..]))
  }

  function NormalDomain(raw: string): string {
    Lower(Trim(raw))
  }
}
