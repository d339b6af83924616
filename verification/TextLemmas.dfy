/** Laws of Join, Fields and Contains. */
module TextLemmas {
  import opened Text

  lemma {:induction false} JoinAppend(a: seq<string>, b: seq<string>, sep: string)
    ensures Join(a + b, sep)
         == if a == [] then Join(b, sep) else if b == [] then Join(a, sep) else Join(a, sep) + sep + Join(b, sep)
  {
    if a == [] {
      assert a + b == b;
    } else if b == [] {
      assert a + b == a;
    } else if |a| == 1 {
      assert (a + b)[1..] == b;
    } else {
      assert (a + b)[1..] == a[1..] + b;
      JoinAppend(a[1..], b, sep);
      assert Join(a + b, sep) == a[0] + sep + (Join(a[1..], sep) + sep + Join(b, sep));
    }
  }

  predicate Blank(s: string) {
    forall i :: 0 <= i < |s| ==> IsSpace(s[i])
  }

  lemma {:induction false} FieldsBlank(s: string)
    requires Blank(s)
    ensures Fields(s) == []
    decreases |s|
  {
    if s != "" {
      assert IsSpace(s[0]);
      FieldsBlank(s[1..]);
    }
  }

  lemma {:induction false} TokenLengthIs(t: string, rest: string)
    requires Solid(t) && (rest == "" || IsSpace(rest[0]))
    ensures TokenLength(t + rest) == |t|
  {
    var s := t + rest;
    if t == "" {
      assert s == rest;
    } else {
      assert s[1..] == t[1..] + rest;
      assert !IsSpace(t[0]);
      assert Solid(t[1..]);
      TokenLengthIs(t[1..], rest);
    }
  }

  /** A token in front of a blank or of the end is a field of its own. */
  lemma {:induction false} FieldsToken(t: string, rest: string)
    requires t != "" && Solid(t) && (rest == "" || IsSpace(rest[0]))
    ensures Fields(t + rest) == [t] + Fields(rest)
  {
    TokenLengthIs(t, rest);
    assert (t + rest)[0] == t[0];
    assert (t + rest)[..|t|] == t && (t + rest)[|t|..] == rest;
  }

  lemma {:induction false} FieldsStep(s: string)
    requires s != ""
    ensures IsSpace(s[0]) ==> Fields(s) == Fields(s[1..])
    ensures !IsSpace(s[0]) ==> TokenLength(s) > 0
  {
  }

  /** Fields split at every blank. */
  lemma {:induction false} FieldsAppend(a: string, b: string)
    requires b == "" || IsSpace(b[0])
    ensures Fields(a + b) == Fields(a) + Fields(b)
    decreases |a|
  {
    hide Fields;
    hide TokenLength;
    hide IsSpace;
    if a == "" {
      FieldsBlank("");
    } else {
      FieldsStep(a);
      FieldsStep(a + b);
      assert (a + b)[0] == a[0];
    }
    if a == "" {
      assert a + b == b;
    } else if IsSpace(a[0]) {
      assert (a + b)[1..] == a[1..] + b;
      FieldsAppend(a[1..], b);
    } else {
      var n := TokenLength(a);
      var t, rest := a[..n], a[n..];
      assert a + b == t + (rest + b) && a == t + rest;
      FieldsToken(t, rest + b);
      FieldsToken(t, rest);
      FieldsAppend(rest, b);
      assert [t] + (Fields(rest) + Fields(b)) == ([t] + Fields(rest)) + Fields(b);
    }
  }

  /** A token with a blank before it and a blank or the end after it. */
  lemma {:induction false} FieldsMiddle(a: string, t: string, b: string)
    requires a == "" || IsSpace(a[|a| - 1])
    requires t != "" && Solid(t)
    requires b == "" || IsSpace(b[0])
    ensures Fields(a + t + b) == Fields(a) + [t] + Fields(b)
  {
    hide Fields;
    hide TokenLength;
    hide IsSpace;
    FieldsToken(t, b);
    assert a + t + b == a + (t + b);
    if a == "" {
      FieldsBlank("");
      assert a + (t + b) == t + b;
    } else {
      var m := |a| - 1;
      var last := a[m..];
      assert last == [a[m]];
      assert a == a[..m] + last;
      assert a + (t + b) == a[..m] + (last + (t + b));
      FieldsAppend(a[..m], last + (t + b));
      FieldsAppend(a[..m], last);
      FieldsStep(last + (t + b));
      assert (last + (t + b))[1..] == t + b;
      assert Blank(last);
      FieldsBlank(last);
      assert Fields(last + (t + b)) == Fields(t + b);
    }
  }

  lemma {:induction false} FieldsDropBlank(a: string, ws: string)
    requires Blank(ws)
    ensures Fields(a + ws) == Fields(a)
  {
    FieldsBlank(ws);
    FieldsAppend(a, ws);
  }

  lemma {:induction false} OccursIn(a: string, sub: string, b: string)
    ensures Contains(a + sub + b, sub)
  {
    assert OccursAt(a + sub + b, sub, |a|);
  }

  /** What TrimRight cuts off is blank, and what it leaves ends solid. */
  lemma {:induction false} TrimRightRest(s: string)
    ensures TrimRight(s) <= s && Blank(s[|TrimRight(s)|..])
    ensures TrimRight(s) == "" || !IsSpace(TrimRight(s)[|TrimRight(s)| - 1])
    decreases |s|
  {
    if s != "" && IsSpace(s[|s| - 1]) {
      var t := s[..|s| - 1];
      TrimRightRest(t);
      var n := |TrimRight(t)|;
      assert s[n..] == t[n..] + [s[|s| - 1]];
    }
  }

  /** Trimming a text that starts solid keeps everything up to a solid character. */
  lemma {:induction false} TrimKeeps(s: string, k: nat)
    requires 0 < k <= |s| && !IsSpace(s[0]) && !IsSpace(s[k - 1])
    ensures Trim(s) <= s && |Trim(s)| >= k && Blank(s[|Trim(s)|..]) && !IsSpace(Trim(s)[|Trim(s)| - 1])
  {
    assert TrimLeft(s) == s;
    TrimRightRest(s);
    var n := |Trim(s)|;
    forall j | n <= j < |s|
      ensures IsSpace(s[j])
    {
      assert s[j] == s[n..][j - n];
    }
  }

  lemma {:induction false} TrimSolid(s: string)
    requires Solid(s)
    ensures Trim(s) == s
  {
  }

  /** " word next" occurs in fields joined by blanks only where a field equal to
      word is followed by one that starts with next. */
  lemma {:induction false} PairInFields(fields: seq<string>, word: string, next: string, p: int) returns (i: nat)
    requires forall k :: 0 <= k < |fields| ==> Solid(fields[k])
    requires word != "" && Solid(word) && next != "" && Solid(next)
    requires OccursAt(Join(fields, " "), " " + word + " " + next, p)
    ensures 0 < i && i + 1 < |fields| && fields[i] == word && next <= fields[i + 1]
    decreases |fields|
  {
    var s, sub := Join(fields, " "), " " + word + " " + next;
    assert s[p] == s[p..p + |sub|][0] == ' ';
    var t := fields[0];
    assert forall k :: 0 <= k < |t| ==> t[k] != ' ';
    assert p >= |t| && |fields| > 1;
    var rest := Join(fields[1..], " ");
    assert s == t + " " + rest;
    if p == |t| {
      assert rest[..|sub| - 1] == s[p..p + |sub|][1..];
      assert sub[1..] == word + " " + next;
      assert (word + " " + next) <= rest;
      FirstField(fields[1..], word, next);
      i := 1;
    } else {
      assert rest[p - |t| - 1..p - |t| - 1 + |sub|] == s[p..p + |sub|];
      var j := PairInFields(fields[1..], word, next, p - |t| - 1);
      i := j + 1;
    }
  }

  lemma {:induction false} FirstField(fields: seq<string>, word: string, next: string)
    requires forall k :: 0 <= k < |fields| ==> Solid(fields[k])
    requires Solid(word) && next != "" && Solid(next)
    requires (word + " " + next) <= Join(fields, " ")
    ensures |fields| > 1 && fields[0] == word && next <= fields[1]
  {
    var s := Join(fields, " ");
    var lead := word + " " + next;
    assert s[|word|] == lead[|word|] == ' ';
    var t := fields[0];
    assert forall k :: 0 <= k < |t| ==> t[k] != ' ';
    assert forall k :: 0 <= k < |word| ==> lead[k] != ' ';
    assert |t| <= |word| && |fields| > 1;
    var rest := Join(fields[1..], " ");
    assert s == t + " " + rest;
    assert s[|t|] == ' ';
    assert |t| == |word|;
    assert t == s[..|t|] == lead[..|t|] == word;
    assert next == lead[|word| + 1..] == s[|word| + 1..|lead|];
    assert next <= rest;
    PrefixField(fields[1..], next);
  }

  lemma {:induction false} PrefixField(fields: seq<string>, next: string)
    requires next != "" && Solid(next)
    requires next <= Join(fields, " ")
    ensures |fields| > 0 && next <= fields[0]
  {
    if |fields| > 1 {
      var s := Join(fields, " ");
      var t := fields[0];
      assert s == t + " " + Join(fields[1..], " ");
      assert s[|t|] == ' ';
      assert forall k :: 0 <= k < |next| ==> s[k] != ' ';
      assert next == s[..|next|] == t[..|next|];
    }
  }

  lemma {:induction false} IndexIs(s: string, c: char, i: nat)
    requires i < |s| && s[i] == c && c !in s[..i]
    ensures IndexOf(s, c) == i
  {
    hide IndexOf;
    var j := IndexOf(s, c);
    assert j >= 0 && forall k :: 0 <= k < i ==> s[..i][k] == s[k];
  }

  lemma {:induction false} ColonAt(name: string, rest: string)
    requires ':' !in name
    ensures IndexOf(name + ":" + rest, ':') == |name|
  {
    hide IndexOf;
    assert (name + ":" + rest)[..|name|] == name;
    IndexIs(name + ":" + rest, ':', |name|);
  }

  lemma {:induction false} JoinOne(s: string, sep: string)
    ensures Join([s], sep) == s
  {
  }

  lemma {:induction false} SolidAppend(a: string, b: string)
    requires Solid(a) && Solid(b)
    ensures Solid(a + b)
  {
  }

  lemma {:induction false} LowerAppend(a: string, b: string)
    ensures Lower(a + b) == Lower(a) + Lower(b)
  {
  }

  lemma {:induction false} FieldsAfterBlank(s: string)
    ensures Fields(" " + s) == Fields(s)
  {
    hide Fields;
    hide TokenLength;
    FieldsStep(" " + s);
    assert (" " + s)[1..] == s;
    assert (" " + s)[0] == ' ' && IsSpace(' ');
  }

  lemma {:induction false} ThreeWords(a: string, b: string, c: string)
    requires a != "" && Solid(a) && b != "" && Solid(b) && c != "" && Solid(c)
    ensures Fields(a + (" " + (b + (" " + c)))) == [a, b, c]
  {
    hide Fields;
    hide Solid;
    assert IsSpace(' ');
    hide IsSpace;
    FieldsBlank("");
    FieldsToken(c, "");
    assert c + "" == c;
    FieldsAfterBlank(c);
    FieldsToken(b, " " + c);
    FieldsAfterBlank(b + (" " + c));
    FieldsToken(a, " " + (b + (" " + c)));
  }

  /** Blanks in front are trimmed. */
  lemma {:induction false} TrimLead(ws: string, s: string)
    requires Blank(ws)
    ensures Trim(ws + s) == Trim(s)
  {
    hide TrimRight;
    if ws == "" {
      assert ws + s == s;
    } else {
      assert IsSpace(ws[0]) && (ws + s)[1..] == ws[1..] + s && (ws + s)[0] == ws[0];
      hide IsSpace;
      TrimLead(ws[1..], s);
    }
  }

  /** Blanks behind a solid character are trimmed. */
  lemma {:induction false} TrimTo(t: string, k: nat)
    requires 0 < k <= |t| && !IsSpace(t[0]) && !IsSpace(t[k - 1]) && Blank(t[k..])
    ensures Trim(t) == t[..k]
  {
    hide Trim;
    hide IsSpace;
    TrimKeeps(t, k);
    var ws := t[k..];
    assert forall j :: k <= j < |t| ==> t[j] == ws[j - k];
  }

  /** Solid words one blank apart are the fields of their text. */
  lemma {:induction false} FieldsOfWords(words: seq<string>)
    requires forall i :: 0 <= i < |words| ==> words[i] != "" && Solid(words[i])
    ensures Fields(Join(words, " ")) == words
  {
    hide Fields;
    hide Solid;
    FieldsBlank("");
    if |words| == 1 {
      FieldsToken(words[0], "");
      assert words[0] + "" == words[0];
    } else if |words| > 1 {
      var rest := Join(words[1..], " ");
      FieldsOfWords(words[1..]);
      assert IsSpace(' ');
      hide IsSpace;
      FieldsToken(words[0], " " + rest);
      FieldsAfterBlank(rest);
      assert Join(words, " ") == words[0] + (" " + rest);
    }
  }
}
