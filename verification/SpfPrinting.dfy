/** Terms of an SPF record as they are written, and that parsing gives them back. */
module SpfPrinting {
  import opened Text
  import opened TextLemmas
  import opened SpfRecord

  /** The qualifier of a result. */
  function Mark(c: Code): char
    requires c == Pass || c == Fail || c == SoftFail || c == Neutral
  {
    match c case Pass => '+' case Fail => '-' case SoftFail => '~' case Neutral => '?'
  }

  /** A mechanism name in lower case, without the characters that structure a term. */
  predicate PlainName(name: string) {
    && name != "" && Solid(name) && Lower(name) == name
    && ':' !in name && '/' !in name && '=' !in name && !IsMark(name[0])
  }

  predicate PlainValue(value: string) {
    Solid(value) && '/' !in value && '=' !in value
  }

  /** A prefix length as it stands behind the first slash, such as 24 or 24//64. */
  predicate PlainLength(cidr: string) {
    Solid(cidr) && '=' !in cidr
  }

  function Slashed(cidr: string): string {
    if cidr == "" then "" else "/" + cidr
  }

  lemma {:induction false} FirstSlash(a: string, cidr: string)
    requires '/' !in a
    ensures var s := a + Slashed(cidr);
      if cidr == "" then IndexOf(s, '/') == -1 && s == a
      else IndexOf(s, '/') == |a| && s[..|a|] == a && s[|a| + 1..] == cidr
  {
    hide IndexOf;
    var s := a + Slashed(cidr);
    if cidr == "" {
      assert s == a;
    } else {
      assert s == a + ("/" + cidr);
      assert s[|a|] == '/' && s[..|a|] == a && s[|a| + 1..] == cidr;
      IndexIs(s, '/', |a|);
    }
  }

  lemma {:induction false} SolidSlashed(a: string, cidr: string)
    requires Solid(a) && '=' !in a && PlainLength(cidr)
    ensures Solid(a + Slashed(cidr)) && '=' !in a + Slashed(cidr)
  {
    assert !IsSpace('/');
    hide IsSpace;
    assert forall c :: c in a + Slashed(cidr) ==> c in a || c == '/' || c in cidr;
  }

  lemma {:induction false} SolidTerm(name: string, value: string)
    requires PlainName(name) && Solid(value) && '=' !in value
    ensures Solid(name + ":" + value) && Solid(name) && '=' !in name + ":" + value
    ensures Trim(name + ":" + value) == name + ":" + value && Trim(name) == name && Trim(value) == value
  {
    hide Trim;
    hide Lower;
    assert !IsSpace(':');
    hide IsSpace;
    assert Solid(name + ":" + value);
    TrimSolid(name);
    TrimSolid(value);
    TrimSolid(name + ":" + value);
  }

  lemma {:induction false} ParsesBack(name: string, value: string, cidr: string)
    requires PlainName(name) && PlainValue(value) && PlainLength(cidr)
    ensures var text := name + ":" + (value + Slashed(cidr));
      ParseMechanism(text) == MechanismText(name, value, cidr) && NameOf(text) == name
  {
    hide Trim;
    hide Lower;
    hide Slashed;
    hide IndexOf;
    var v := value + Slashed(cidr);
    SolidSlashed(value, cidr);
    SolidTerm(name, v);
    TrimSolid(cidr);
    hide Solid;
    FirstSlash(value, cidr);
    ColonAt(name, v);
    var s := name + ":" + v;
    assert s[..|name|] == name && s[|name| + 1..] == v && s[0] == name[0];
    assert IndexOf(name, '/') == -1;
  }

  /** A token without an equals sign is a directive. */
  lemma {:induction false} NoModifier(tok: string)
    requires tok != "" && Solid(tok) && '=' !in tok
    ensures Trim(tok) == tok && !("redirect=" <= Lower(tok)) && !("exp=" <= Lower(tok))
  {
    TrimSolid(tok);
    var low := Lower(tok);
    forall i | 0 <= i < |low|
      ensures low[i] != '='
    {
      assert low[i] == LowerChar(tok[i]) && tok[i] in tok;
    }
    assert "redirect="[8] == '=' && "exp="[3] == '=';
  }

  /** A directive with qualifier, value and prefix length is read as it was
      written. */
  lemma {:induction false} DirectiveRoundTrip(c: Code, name: string, value: string, cidr: string)
    requires c == Pass || c == Fail || c == SoftFail || c == Neutral
    requires PlainName(name) && PlainValue(value) && PlainLength(cidr)
    ensures Classify([Mark(c)] + (name + ":" + (value + Slashed(cidr))))
         == Directive(c, MechanismOf(MechanismText(name, value, cidr)), name)
  {
    hide Trim;
    hide Lower;
    hide ParseMechanism;
    hide NameOf;
    hide MechanismOf;
    hide Slashed;
    SolidSlashed(value, cidr);
    SolidTerm(name, value + Slashed(cidr));
    ParsesBack(name, value, cidr);
    Marked(c, name + ":" + (value + Slashed(cidr)));
  }

  /** A qualifier in front of a text without blanks and equals sign. */
  lemma {:induction false} Marked(c: Code, text: string)
    requires c == Pass || c == Fail || c == SoftFail || c == Neutral
    requires Solid(text) && '=' !in text
    ensures Classify([Mark(c)] + text) == Directive(c, MechanismOf(ParseMechanism(text)), NameOf(text))
  {
    hide Trim;
    hide Lower;
    hide ParseMechanism;
    hide NameOf;
    hide MechanismOf;
    var tok := [Mark(c)] + text;
    assert !IsSpace(Mark(c)) && Mark(c) != '=';
    assert Solid(tok);
    NoModifier(tok);
    assert tok[0] == Mark(c) && IsMark(tok[0]) && tok[1..] == text;
  }

  /** Without a qualifier the directive stands for pass. */
  lemma {:induction false} UnmarkedMeansPass(name: string, value: string, cidr: string)
    requires PlainName(name) && PlainValue(value) && PlainLength(cidr)
    ensures Classify(name + ":" + (value + Slashed(cidr)))
         == Directive(Pass, MechanismOf(MechanismText(name, value, cidr)), name)
  {
    hide Trim;
    hide Lower;
    hide ParseMechanism;
    hide NameOf;
    hide MechanismOf;
    hide Slashed;
    var tok := name + ":" + (value + Slashed(cidr));
    SolidSlashed(value, cidr);
    SolidTerm(name, value + Slashed(cidr));
    ParsesBack(name, value, cidr);
    NoModifier(tok);
    assert tok[0] == name[0];
  }

  lemma {:induction false} BareParses(name: string, cidr: string)
    requires PlainName(name) && PlainLength(cidr) && ':' !in cidr && Lower(cidr) == cidr
    ensures var text := name + Slashed(cidr);
      ParseMechanism(text) == MechanismText(name, "", cidr) && NameOf(text) == text
  {
    hide Trim;
    hide Lower;
    hide IndexOf;
    var s := name + Slashed(cidr);
    SolidSlashed(name, cidr);
    TrimSolid(s);
    TrimSolid(name);
    hide Solid;
    FirstSlash(name, cidr);
    LowerSlashed(name, cidr);
    assert forall c :: c in s ==> c in name || c == '/' || c in cidr;
    assert s[0] == name[0];
    hide Slashed;
    assert IndexOf(s, ':') == -1 && IndexOf("", '/') == -1;
  }

  lemma {:induction false} LowerSlashed(name: string, cidr: string)
    requires Lower(name) == name && Lower(cidr) == cidr
    ensures Lower(name + Slashed(cidr)) == name + Slashed(cidr)
  {
    LowerSlash();
    hide Lower;
    if cidr != "" {
      LowerAppend("/", cidr);
      LowerAppend(name, "/" + cidr);
    } else {
      assert name + "" == name;
    }
  }

  lemma {:induction false} LowerSlash()
    ensures Lower("/") == "/"
  {
  }

  /** A mechanism without value, such as all or a/24, with its qualifier; the
      reported name keeps the prefix length. */
  lemma {:induction false} BareRoundTrip(c: Code, name: string, cidr: string)
    requires c == Pass || c == Fail || c == SoftFail || c == Neutral
    requires PlainName(name) && PlainLength(cidr) && ':' !in cidr && Lower(cidr) == cidr
    ensures Classify([Mark(c)] + (name + Slashed(cidr)))
         == Directive(c, MechanismOf(MechanismText(name, "", cidr)), name + Slashed(cidr))
  {
    hide Trim;
    hide Lower;
    hide MechanismOf;
    hide ParseMechanism;
    hide NameOf;
    hide Slashed;
    SolidSlashed(name, cidr);
    BareParses(name, cidr);
    Marked(c, name + Slashed(cidr));
  }

  lemma {:induction false} RedirectRoundTrip(target: string)
    requires Solid(target)
    ensures Classify("redirect=" + target) == Redirect(target)
  {
    hide Trim;
    hide IsSpace;
    var tok := "redirect=" + target;
    RedirectWord();
    SolidAppend("redirect=", target);
    TrimSolid(tok);
    TrimSolid(target);
    assert Lower(tok)[..9] == Lower("redirect=");
    assert tok[9..] == target;
  }

  lemma {:induction false} RedirectWord()
    ensures Solid("redirect=") && Lower("redirect=") == "redirect="
  {
  }
}
