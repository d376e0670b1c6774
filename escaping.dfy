/**
 * `CasinoFinder.esc`: replaces each of `& < > " '` by its HTML entity and
 * keeps every other character. `Unescape` is the decoder it is paired with.
 */
module Escaping {

  predicate IsSpecial(c: char) {
    c == '&' || c == '<' || c == '>' || c == '"' || c == '\''
  }

  /** The replacement for one character, per the escaper's lookup table. */
  function EscChar(c: char): string {
    if c == '&' then "&amp;"
    else if c == '<' then "&lt;"
    else if c == '>' then "&gt;"
    else if c == '"' then "&quot;"
    else if c == '\'' then "&#039;"
    else [c]
  }

  /** The escaped string: no raw `<`, `>`, `"` or `'` remains, and every
      character that needs no escaping is kept as it is. */
  function Esc(s: string): (r: string)
    ensures forall i :: 0 <= i < |r| ==> r[i] != '<' && r[i] != '>' && r[i] != '"' && r[i] != '\''
    ensures |r| >= |s|
  {
    if s == [] then [] else EscChar(s[0]) + Esc(s[1..])
  }

  /** Text with no special character passes through unchanged. */
  lemma {:induction false} EscKeepsPlainText(s: string)
    requires forall i :: 0 <= i < |s| ==> !IsSpecial(s[i])
    ensures Esc(s) == s
  {
    if s != [] {
      EscKeepsPlainText(s[1..]);
      assert s == [s[0]] + s[1..];
    }
  }

  /** Escaping works character by character: it distributes over concatenation. */
  lemma {:induction false} EscConcat(a: string, b: string)
    ensures Esc(a + b) == Esc(a) + Esc(b)
  {
    if a != [] {
      EscConcat(a[1..], b);
      assert (a + b)[0] == a[0] && (a + b)[1..] == a[1..] + b;
    } else {
      assert a + b == b;
    }
  }

  /** Every `&` in the output starts one of the five entities. */
  predicate EntityAt(r: string, i: nat)
    requires i < |r|
  {
    var rest := r[i..];
    (|rest| >= 5 && rest[..5] == "&amp;")
    || (|rest| >= 4 && rest[..4] == "&lt;")
    || (|rest| >= 4 && rest[..4] == "&gt;")
    || (|rest| >= 6 && rest[..6] == "&quot;")
    || (|rest| >= 6 && rest[..6] == "&#039;")
  }

  lemma {:induction false} AmpersandsStartEntities(s: string)
    ensures forall i :: 0 <= i < |Esc(s)| && Esc(s)[i] == '&' ==> EntityAt(Esc(s), i)
  {
    if s != [] {
      AmpersandsStartEntities(s[1..]);
      var head, tail := EscChar(s[0]), Esc(s[1..]);
      assert Esc(s) == head + tail;
      forall i | 0 <= i < |head + tail| && (head + tail)[i] == '&'
        ensures EntityAt(head + tail, i)
      {
        if i < |head| {
          assert i == 0;
          assert (head + tail)[i..][..|head|] == head;
        } else {
          assert (head + tail)[i..] == tail[i - |head|..];
        }
      }
    }
  }

  /** Decodes the five entities `Esc` produces; everything else is copied. */
  function Unescape(s: string): string
    decreases |s|
  {
    if s == [] then []
    else if |s| >= 5 && s[..5] == "&amp;" then "&" + Unescape(s[5..])
    else if |s| >= 4 && s[..4] == "&lt;" then "<" + Unescape(s[4..])
    else if |s| >= 4 && s[..4] == "&gt;" then ">" + Unescape(s[4..])
    else if |s| >= 6 && s[..6] == "&quot;" then "\"" + Unescape(s[6..])
    else if |s| >= 6 && s[..6] == "&#039;" then "'" + Unescape(s[6..])
    else [s[0]] + Unescape(s[1..])
  }

  lemma UnescapeEscChar(c: char, t: string)
    ensures Unescape(EscChar(c) + t) == [c] + Unescape(t)
  {
    var s := EscChar(c) + t;
    if c == '&' {
      assert s[..5] == "&amp;" && s[5..] == t;
    } else if c == '<' {
      assert !(|s| >= 5 && s[..5] == "&amp;") by { assert s[1] == 'l'; }
      assert s[..4] == "&lt;" && s[4..] == t;
    } else if c == '>' {
      assert !(|s| >= 5 && s[..5] == "&amp;") by { assert s[1] == 'g'; }
      assert s[..4] != "&lt;" by { assert s[1] == 'g'; }
      assert s[..4] == "&gt;" && s[4..] == t;
    } else if c == '"' {
      assert s[..5] != "&amp;" by { assert s[1] == 'q'; }
      assert s[..4] != "&lt;" && s[..4] != "&gt;" by { assert s[1] == 'q'; }
      assert s[..6] == "&quot;" && s[6..] == t;
    } else if c == '\'' {
      assert s[..5] != "&amp;" by { assert s[1] == '#'; }
      assert s[..4] != "&lt;" && s[..4] != "&gt;" by { assert s[1] == '#'; }
      assert s[..6] != "&quot;" by { assert s[1] == '#'; }
      assert s[..6] == "&#039;" && s[6..] == t;
    } else {
      NotEntityStart(s);
      assert s[1..] == t;
    }
  }

  lemma NotEntityStart(s: string)
    requires s != [] && s[0] != '&'
    ensures !(|s| >= 5 && s[..5] == "&amp;") && !(|s| >= 4 && s[..4] == "&lt;")
    ensures !(|s| >= 4 && s[..4] == "&gt;") && !(|s| >= 6 && s[..6] == "&quot;")
    ensures !(|s| >= 6 && s[..6] == "&#039;")
  {
    if |s| >= 4 { assert s[..4][0] == s[0]; }
    if |s| >= 5 { assert s[..5][0] == s[0]; }
    if |s| >= 6 { assert s[..6][0] == s[0]; }
  }

  /** Round trip: decoding the escaped text gives back the original text. */
  lemma {:induction false} UnescapeEsc(s: string)
    ensures Unescape(Esc(s)) == s
  {
    if s != [] {
      UnescapeEsc(s[1..]);
      UnescapeEscChar(s[0], Esc(s[1..]));
      assert s == [s[0]] + s[1..];
    }
  }
}
