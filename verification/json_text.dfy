/** A reader of JSON objects of strings, and what it reads from the text the prompts are built with. */
module JsonText {
  import opened Options
  import opened Sequences
  import opened Context

  // ----- The reader -----

  function HexValue(c: char): Option<nat> {
    if '0' <= c <= '9' then Some(c as int - '0' as int)
    else if 'a' <= c <= 'f' then Some(c as int - 'a' as int + 10)
    else if 'A' <= c <= 'F' then Some(c as int - 'A' as int + 10)
    else None
  }

  /** The character that a backslash and e stand for, by section 7 of RFC 8259. */
  function Unescaped(e: char): Option<char> {
    match e
    case '\"' => Some('\"')
    case '\\' => Some('\\')
    case '/' => Some('/')
    case 'b' => Some(8 as char)
    case 'f' => Some(12 as char)
    case 'n' => Some(10 as char)
    case 'r' => Some(13 as char)
    case 't' => Some(9 as char)
    case _ => None
  }

  /** The character written at the front of s, which is inside a string, and the text after it. A
      control character must be escaped; surrogates are not read. */
  function ReadChar(s: string): (r: Option<(char, string)>)
    ensures r.Some? ==> |r.value.1| < |s|
  {
    if s == "" || s[0] == '\"' || s[0] < ' ' then None
    else if s[0] != '\\' then Some((s[0], s[1..]))
    else if |s| >= 2 && Unescaped(s[1]).Some? then Some((Unescaped(s[1]).value, s[2..]))
    else if |s| >= 6 && s[1] == 'u' then
      var a, b, c, d := HexValue(s[2]), HexValue(s[3]), HexValue(s[4]), HexValue(s[5]);
      if a.Some? && b.Some? && c.Some? && d.Some? && a.value < 13 && b.value < 16 && c.value < 16 && d.value < 16
      then Some(((4096 * a.value + 256 * b.value + 16 * c.value + d.value) as char, s[6..]))
      else None
    else None
  }

  /** The string whose opening quote has been read, and the text after its closing quote. */
  function ReadString(s: string): (r: Option<(string, string)>)
    ensures r.Some? ==> |r.value.1| < |s|
    decreases |s|
  {
    if s != "" && s[0] == '\"' then
      Some(("", s[1..]))
    else
      match ReadChar(s)
      case None => None
      case Some((c, more)) =>
        match ReadString(more)
        case None => None
        case Some((t, rest)) => Some(([c] + t, rest))
  }

  /** The members whose first quote has been read, up to the closing brace. */
  function ReadMembers(s: string): Option<seq<(string, string)>>
    decreases |s|
  {
    match ReadString(s)
    case None => None
    case Some((key, more)) =>
      if !(": \"" <= more) then None
      else
        match ReadString(more[3..])
        case None => None
        case Some((value, rest)) =>
          if rest == "}" then Some([(key, value)])
          else if !(", \"" <= rest) then None
          else
            match ReadMembers(rest[3..])
            case None => None
            case Some(others) => Some([(key, value)] + others)
  }

  /** An object of strings, with the separators that json.dumps writes. */
  function ReadObject(s: string): Option<seq<(string, string)>> {
    if s == "{}" then Some([])
    else if "{\"" <= s then ReadMembers(s[2..])
    else None
  }

  // ----- Reading what was written -----

  lemma HexDigitValue(n: nat)
    requires n < 16
    ensures HexValue(HEX[n]) == Some(n)
  {
  }

  lemma ReadShort(c: char, x: string)
    requires |EscapeChar(c)| <= 2
    ensures ReadChar(EscapeChar(c) + x) == Some((c, x))
  {
    var s := EscapeChar(c) + x;
    if |EscapeChar(c)| == 1 {
      assert s[0] == c && s[1..] == x;
    } else {
      assert s[0] == '\\' && s[1] == EscapeChar(c)[1] && s[2..] == x;
    }
  }

  lemma ReadControl(c: char, x: string)
    requires |EscapeChar(c)| > 2
    ensures ReadChar(EscapeChar(c) + x) == Some((c, x))
  {
    var s, n := EscapeChar(c) + x, c as int;
    assert EscapeChar(c) == "\\u00" + [HEX[n / 16]] + [HEX[n % 16]];
    HexDigitValue(n / 16);
    HexDigitValue(n % 16);
    assert s[0] == '\\' && s[1] == 'u' && s[2] == '0' && s[3] == '0' && s[4] == HEX[n / 16] && s[5] == HEX[n % 16];
    assert s[6..] == x;
  }

  lemma ReadEscaped(c: char, x: string)
    ensures ReadChar(EscapeChar(c) + x) == Some((c, x))
  {
    if |EscapeChar(c)| <= 2 {
      ReadShort(c, x);
    } else {
      ReadControl(c, x);
    }
  }

  lemma NoBareQuote(c: char, x: string)
    ensures (EscapeChar(c) + x)[0] != '\"'
  {
  }

  lemma {:induction false} ReadWritten(t: string, x: string)
    ensures ReadString(Escape(t) + ("\"" + x)) == Some((t, x))
  {
    if t == "" {
      assert Escape(t) + ("\"" + x) == "\"" + x;
      assert ("\"" + x)[1..] == x;
    } else {
      var more := Escape(t[1..]) + ("\"" + x);
      assert Escape(t) + ("\"" + x) == EscapeChar(t[0]) + more;
      ReadEscaped(t[0], more);
      NoBareQuote(t[0], more);
      ReadWritten(t[1..], x);
      assert [t[0]] + t[1..] == t;
    }
  }

  function ValueOf(key: string, values: map<string, string>): string {
    if key in values then values[key] else ""
  }

  function Tail(keys: seq<string>, values: map<string, string>): string
    requires keys != []
    decreases |keys|, 0
  {
    if |keys| == 1 then "}" else ", \"" + MembersText(keys[1..], values)
  }

  /** The text of an object from its first member's key on, its quote read. */
  function MembersText(keys: seq<string>, values: map<string, string>): string
    requires keys != []
    decreases |keys|, 1
  {
    Escape(keys[0]) + ("\"" + (": \"" + (Escape(ValueOf(keys[0], values)) + ("\"" + Tail(keys, values)))))
  }

  /** The members in the order of keys. */
  function Entries(keys: seq<string>, values: map<string, string>): seq<(string, string)> {
    seq(|keys|, i requires 0 <= i < |keys| => (keys[i], ValueOf(keys[i], values)))
  }

  /** The reader takes one member off the front. */
  lemma ReadOne(k: string, v: string, tail: string)
    ensures ReadMembers(Escape(k) + ("\"" + (": \"" + (Escape(v) + ("\"" + tail)))))
            == if tail == "}" then Some([(k, v)])
               else if !(", \"" <= tail) then None
               else match ReadMembers(tail[3..])
                 case None => None
                 case Some(others) => Some([(k, v)] + others)
  {
    var value := Escape(v) + ("\"" + tail);
    var more := ": \"" + value;
    ReadWritten(k, more);
    ReadWritten(v, tail);
    assert more[3..] == value;
  }

  lemma EntriesStep(keys: seq<string>, values: map<string, string>)
    requires keys != []
    ensures Entries(keys, values) == [(keys[0], ValueOf(keys[0], values))] + Entries(keys[1..], values)
  {
  }

  lemma TailBegins(keys: seq<string>, values: map<string, string>)
    requires |keys| > 1
    ensures Tail(keys, values) != "}" && ", \"" <= Tail(keys, values)
    ensures Tail(keys, values)[3..] == MembersText(keys[1..], values)
  {
  }

  lemma {:induction false} ReadMembersBack(keys: seq<string>, values: map<string, string>)
    requires keys != []
    ensures ReadMembers(MembersText(keys, values)) == Some(Entries(keys, values))
    decreases |keys|
  {
    ReadOne(keys[0], ValueOf(keys[0], values), Tail(keys, values));
    EntriesStep(keys, values);
    if |keys| == 1 {
      assert Entries(keys, values) == [(keys[0], ValueOf(keys[0], values))];
      assert Tail(keys, values) == "}";
    } else {
      TailBegins(keys, values);
      ReadMembersBack(keys[1..], values);
    }
  }

  lemma MemberShape(k: string, v: string, tail: string)
    ensures "\"" + k + "\"" + ": " + ("\"" + v + "\"") + tail == "\"" + (k + ("\"" + (": \"" + (v + ("\"" + tail)))))
  {
    assert ": " + ("\"" + v + "\"") + tail == ": \"" + (v + ("\"" + tail));
  }

  lemma {:induction false} JoinedMembers(keys: seq<string>, values: map<string, string>)
    requires keys != []
    ensures Join(JsonMembers(keys, values), ", ") + "}" == "\"" + MembersText(keys, values)
    decreases |keys|
  {
    var members := JsonMembers(keys, values);
    var value := ValueOf(keys[0], values);
    assert members[0] == "\"" + Escape(keys[0]) + "\"" + ": " + ("\"" + Escape(value) + "\"");
    MemberShape(Escape(keys[0]), Escape(value), Tail(keys, values));
    if |keys| > 1 {
      JoinedMembers(keys[1..], values);
      NextMembers(keys, values);
    }
  }

  lemma NextMembers(keys: seq<string>, values: map<string, string>)
    requires |keys| > 1
    requires Join(JsonMembers(keys[1..], values), ", ") + "}" == "\"" + MembersText(keys[1..], values)
    ensures Join(JsonMembers(keys, values), ", ") + "}" == JsonMembers(keys, values)[0] + Tail(keys, values)
  {
    var members := JsonMembers(keys, values);
    assert members[1..] == JsonMembers(keys[1..], values);
    JoinAnother(members[0], Join(members[1..], ", "), MembersText(keys[1..], values));
  }

  lemma JoinAnother(first: string, joined: string, text: string)
    requires joined + "}" == "\"" + text
    ensures first + ", " + joined + "}" == first + (", \"" + text)
  {
    assert first + ", " + joined + "}" == first + (", " + (joined + "}"));
    assert ", " + ("\"" + text) == ", \"" + text;
  }

  lemma ReadTextBack(keys: seq<string>, values: map<string, string>)
    ensures ReadObject("{" + Join(JsonMembers(keys, values), ", ") + "}") == Some(Entries(keys, values))
  {
    var text := "{" + Join(JsonMembers(keys, values), ", ") + "}";
    if keys == [] {
      assert Join(JsonMembers(keys, values), ", ") == "";
      assert text == "{}" && Entries(keys, values) == [];
    } else {
      JoinedMembers(keys, values);
      ReadMembersBack(keys, values);
      assert text == "{" + (Join(JsonMembers(keys, values), ", ") + "}");
      assert text[2..] == MembersText(keys, values) && text[1] == '\"';
    }
  }

  /** The entries of d, each key once, in ascending order. */
  ghost predicate Lists(entries: seq<(string, string)>, d: Dict) {
    && (forall i, j :: 0 <= i < j < |entries| ==> StrLe(entries[i].0, entries[j].0) && entries[i].0 != entries[j].0)
    && (forall k :: k in d.values <==> exists i :: 0 <= i < |entries| && entries[i].0 == k)
    && forall i :: 0 <= i < |entries| && entries[i].0 in d.values ==> entries[i].1 == d.values[entries[i].0]
  }

  lemma EntriesList(d: Dict)
    requires d.Valid()
    ensures Lists(Entries(Sort(d.keys), d.values), d)
  {
    SortSorts(d.keys);
    SortedDictValid(d);
    SortedKeys(d);
    ListsByKeys(Sort(d.keys), d);
  }

  lemma SortedKeys(d: Dict)
    requires d.Valid()
    ensures forall k :: k in Sort(d.keys) <==> k in d.values
  {
    SortedDictValid(d);
  }

  lemma ListsByKeys(keys: seq<string>, d: Dict)
    requires Sorted(keys) && Distinct(keys) && forall k :: k in keys <==> k in d.values
    ensures Lists(Entries(keys, d.values), d)
  {
    forall k | k in d.values
      ensures exists i :: 0 <= i < |keys| && Entries(keys, d.values)[i].0 == k
    {
      var i :| 0 <= i < |keys| && keys[i] == k;
      assert Entries(keys, d.values)[i].0 == k;
    }
  }

  /** Nothing is escaped but quotes, backslashes and control characters, and those that have a short
      escape get it. */
  lemma EscapesAreShort(c: char)
    ensures c >= ' ' && c != '\"' && c != '\\' ==> EscapeChar(c) == [c]
    ensures c == '\"' || c == '\\' || c as int in {8, 9, 10, 12, 13} ==> |EscapeChar(c)| == 2
  {
  }

  /** Reading the JSON text of a dict gives back its entries, each once, with the keys in order. */
  lemma ReadsBack(d: Dict)
    requires d.Valid()
    ensures ReadObject(ToJson(d)).Some? && Lists(ReadObject(ToJson(d)).value, d)
  {
    SortSorts(d.keys);
    ReadTextBack(Sort(d.keys), d.values);
    EntriesList(d);
  }

  lemma SameEntries(entries: seq<(string, string)>, a: Dict, b: Dict)
    requires Lists(entries, a) && Lists(entries, b)
    ensures SameContents(a, b)
  {
    forall k
      ensures k in a.values <==> k in b.values
      ensures k in a.values ==> a.values[k] == b.values[k]
    {
      if k in a.values {
        var i :| 0 <= i < |entries| && entries[i].0 == k;
      }
      if k in b.values {
        var i :| 0 <= i < |entries| && entries[i].0 == k;
      }
    }
  }

  /** So the JSON text of a dict and its contents determine each other. */
  lemma ToJsonIff(a: Dict, b: Dict)
    requires a.Valid() && b.Valid()
    ensures ToJson(a) == ToJson(b) <==> SameContents(a, b)
  {
    if SameContents(a, b) {
      ToJsonCanonical(a, b);
    }
    if ToJson(a) == ToJson(b) {
      ReadsBack(a);
      ReadsBack(b);
      SameEntries(ReadObject(ToJson(a)).value, a, b);
    }
  }
}
