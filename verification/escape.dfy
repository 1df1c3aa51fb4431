/** `esc` of app.js: the HTML escaping applied to player names and chat text
    before they are put into the page. Each of & < > " ' becomes its entity
    and every other character is kept. */
module Escape {
  import opened Basics

  /** The replacement of one character. */
  function EscChar(c: char): (r: string)
    ensures |r| >= 1
    ensures c !in "&<>\"'" ==> r == [c]
  {
    match c
    case '&' => "&amp;"
    case '<' => "&lt;"
    case '>' => "&gt;"
    case '"' => "&quot;"
    case '\'' => "&#39;"
    case _ => [c]
  }

  /** esc: every character replaced by EscChar, in order. The output never
      contains < > " or ', so it cannot open a tag or close an attribute. */
  function Esc(s: string): (r: string)
    ensures |r| >= |s|
    ensures Inert(r)
  {
    if s == [] then []
    else
      InertAppend(EscChar(s[0]), Esc(s[1..]));
      EscChar(s[0]) + Esc(s[1..])
  }

  /** The characters that may not appear in escaped text. */
  predicate Inert(t: string)
  {
    forall i :: 0 <= i < |t| ==> t[i] !in "<>\"'"
  }

  lemma InertAppend(a: string, b: string)
    requires Inert(a) && Inert(b)
    ensures Inert(a + b)
  {
    forall i | 0 <= i < |a + b| ensures (a + b)[i] !in "<>\"'" {
      if i >= |a| {
        assert (a + b)[i] == b[i - |a|];
      } else {
        assert (a + b)[i] == a[i];
      }
    }
  }

  /** Text without special characters is left as it is. */
  lemma {:induction false} EscPlain(s: string)
    requires forall i :: 0 <= i < |s| ==> s[i] !in "&<>\"'"
    ensures Esc(s) == s
  {
    if s != [] {
      EscPlain(s[1..]);
    }
  }

  /** Reads escaped text back: each entity becomes its character; a stray &
      or a special character means the text is not esc output. */
  function Unescape(t: string): (r: Option<string>)
    decreases |t|
  {
    if t == [] then Some([])
    else if t[0] in "<>\"'" then None
    else if t[0] != '&' then Prepend(t[0], Unescape(t[1..]))
    else if |t| >= 5 && t[..5] == "&amp;" then Prepend('&', Unescape(t[5..]))
    else if |t| >= 4 && t[..4] == "&lt;" then Prepend('<', Unescape(t[4..]))
    else if |t| >= 4 && t[..4] == "&gt;" then Prepend('>', Unescape(t[4..]))
    else if |t| >= 6 && t[..6] == "&quot;" then Prepend('"', Unescape(t[6..]))
    else if |t| >= 5 && t[..5] == "&#39;" then Prepend('\'', Unescape(t[5..]))
    else None
  }

  function Prepend(c: char, r: Option<string>): Option<string>
  {
    if r.Some? then Some([c] + r.value) else None
  }

  /** Unescape reads a plain character off the front. */
  lemma UnescapePlain(c: char, tail: string)
    requires c !in "&<>\"'"
    ensures Unescape([c] + tail) == Prepend(c, Unescape(tail))
  {
    var t := [c] + tail;
    assert t[0] == c && t[1..] == tail;
  }

  /** Unescape reads an entity of length n standing for c off the front,
      given that no entity tried before it matches. */
  lemma UnescapeEntity(e: string, c: char, tail: string)
    requires e == EscChar(c) && c in "&<>\"'"
    ensures Unescape(e + tail) == Prepend(c, Unescape(tail))
  {
    var t := e + tail;
    assert t[0] == '&' && t[1] == e[1];
    assert t[..|e|] == e && t[|e|..] == tail;
    assert |t| >= 4 ==> t[..4][1] == e[1];
    assert |t| >= 5 ==> t[..5][1] == e[1];
  }

  /** Unescape reads one escaped character off the front. */
  lemma UnescapeOne(c: char, tail: string)
    ensures Unescape(EscChar(c) + tail) == Prepend(c, Unescape(tail))
  {
    if c in "&<>\"'" {
      UnescapeEntity(EscChar(c), c, tail);
    } else {
      UnescapePlain(c, tail);
    }
  }

  /** Unescaping undoes esc. */
  lemma {:induction false} UnescapeEsc(s: string)
    ensures Unescape(Esc(s)) == Some(s)
  {
    if s != [] {
      UnescapeEsc(s[1..]);
      UnescapeOne(s[0], Esc(s[1..]));
      assert [s[0]] + s[1..] == s;
    }
  }

  /** What Unescape reads off the front of t: n characters of t that are the
      escaping of the first character of the result, the rest unescaping to
      the rest of the result. */
  lemma UnescapeFront(t: string) returns (n: nat)
    requires t != [] && Unescape(t).Some?
    ensures 1 <= n <= |t| && |Unescape(t).value| >= 1
    ensures t[..n] == EscChar(Unescape(t).value[0])
    ensures Unescape(t[n..]).Some? && Unescape(t[n..]).value == Unescape(t).value[1..]
  {
    if t[0] != '&' {
      n := 1;
      assert t[..1] == [t[0]];
    } else if |t| >= 5 && t[..5] == "&amp;" {
      n := 5;
    } else if |t| >= 4 && (t[..4] == "&lt;" || t[..4] == "&gt;") {
      n := 4;
    } else if |t| >= 6 && t[..6] == "&quot;" {
      n := 6;
    } else {
      n := 5;
    }
  }

  /** And only esc output unescapes: whatever Unescape accepts is the escaping of what it returns. */
  lemma {:induction false} EscUnescape(t: string)
    requires Unescape(t).Some?
    ensures Esc(Unescape(t).value) == t
    decreases |t|
  {
    if t != [] {
      var n := UnescapeFront(t);
      EscUnescape(t[n..]);
      assert t == t[..n] + t[n..];
    }
  }

  /** So esc is one-to-one: different names never escape to the same text. */
  lemma EscInjective(s1: string, s2: string)
    ensures Esc(s1) == Esc(s2) ==> s1 == s2
  {
    UnescapeEsc(s1);
    UnescapeEsc(s2);
  }
}
