/** A reader of Python string literals, and what it reads from the ids quoted in error texts. */
module ReprText {
  import opened Options
  import opened Sequences
  import opened JsonText
  import P = Planner

  /** The character that a backslash and e stand for in a literal. */
  function Named(e: char): Option<char> {
    match e
    case '\\' => Some('\\')
    case '\'' => Some('\'')
    case '\"' => Some('\"')
    case 'n' => Some(10 as char)
    case 'r' => Some(13 as char)
    case 't' => Some(9 as char)
    case _ => None
  }

  /** The character written at the front of s, inside a literal, and the text after it. A control
      character must be escaped. */
  function ReadOne(s: string, quote: char): (r: Option<(char, string)>)
    ensures r.Some? ==> |r.value.1| < |s|
  {
    if s == "" || s[0] == quote || s[0] < ' ' || s[0] == 127 as char then None
    else if s[0] != '\\' then Some((s[0], s[1..]))
    else if |s| >= 2 && Named(s[1]).Some? then Some((Named(s[1]).value, s[2..]))
    else if |s| >= 4 && s[1] == 'x' && HexValue(s[2]).Some? && HexValue(s[3]).Some? then
      Some(((16 * HexValue(s[2]).value + HexValue(s[3]).value) as char, s[4..]))
    else None
  }

  /** The literal whose opening quote has been read, if it ends where s ends. */
  function ReadRest(s: string, quote: char): Option<string>
    decreases |s|
  {
    if s == [quote] then
      Some("")
    else
      match ReadOne(s, quote)
      case None => None
      case Some((c, more)) =>
        match ReadRest(more, quote)
        case None => None
        case Some(t) => Some([c] + t)
  }

  function ReadLiteral(s: string): Option<string> {
    if s != "" && (s[0] == '\'' || s[0] == '\"') then ReadRest(s[1..], s[0]) else None
  }

  lemma ReadPlain(c: char, quote: char, x: string)
    requires (quote == '\'' || quote == '\"') && |P.ReprChar(c, quote)| <= 2
    ensures ReadOne(P.ReprChar(c, quote) + x, quote) == Some((c, x))
  {
    var s := P.ReprChar(c, quote) + x;
    if |P.ReprChar(c, quote)| == 1 {
      assert s[0] == c && s[1..] == x;
    } else {
      assert s[0] == '\\' && s[1] == P.ReprChar(c, quote)[1] && s[2..] == x;
    }
  }

  lemma ReadHex(c: char, quote: char, x: string)
    requires (quote == '\'' || quote == '\"') && |P.ReprChar(c, quote)| > 2
    ensures ReadOne(P.ReprChar(c, quote) + x, quote) == Some((c, x))
  {
    var s, n := P.ReprChar(c, quote) + x, c as int;
    assert P.ReprChar(c, quote) == "\\x" + [HEX[n / 16]] + [HEX[n % 16]];
    HexDigitValue(n / 16);
    HexDigitValue(n % 16);
    assert s[0] == '\\' && s[1] == 'x' && s[2] == HEX[n / 16] && s[3] == HEX[n % 16] && s[4..] == x;
  }

  lemma ReprBegins(c: char, quote: char, x: string)
    requires quote == '\'' || quote == '\"'
    ensures |P.ReprChar(c, quote)| > 1 || P.ReprChar(c, quote) == [c] != [quote]
    ensures |P.ReprChar(c, quote)| > 1 ==> P.ReprChar(c, quote)[0] != quote
    ensures x != "" ==> P.ReprChar(c, quote) + x != [quote]
  {
  }

  lemma {:induction false} ReadBody(t: string, quote: char)
    requires quote == '\'' || quote == '\"'
    ensures ReadRest(P.ReprBody(t, quote) + [quote], quote) == Some(t)
  {
    if t == "" {
      assert P.ReprBody(t, quote) + [quote] == [quote];
    } else {
      var more := P.ReprBody(t[1..], quote) + [quote];
      assert P.ReprBody(t, quote) + [quote] == P.ReprChar(t[0], quote) + more;
      ReprBegins(t[0], quote, more);
      if |P.ReprChar(t[0], quote)| <= 2 {
        ReadPlain(t[0], quote, more);
      } else {
        ReadHex(t[0], quote, more);
      }
      ReadBody(t[1..], quote);
      assert [t[0]] + t[1..] == t;
    }
  }

  /** A quoted id reads back as the id; the quotes are double exactly if it has single quotes only. */
  lemma ReprReadsBack(t: string)
    ensures ReadLiteral(P.Repr(t)) == Some(t)
    ensures P.Repr(t) != "" && (P.Repr(t)[0] == '\"' <==> '\'' in t && '\"' !in t)
  {
    var quote := if '\'' in t && '\"' !in t then '\"' else '\'';
    ReadBody(t, quote);
    assert P.Repr(t)[1..] == P.ReprBody(t, quote) + [quote];
  }
}
