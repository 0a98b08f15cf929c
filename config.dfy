/**
 * The two Config classes: string properties looked up by key, and list
 * properties split at commas with java.lang.String.split semantics.
 * Reading a properties file is left out; a Properties object is a map.
 */
module Config {
  import opened Outcomes

  /** java.util.Properties after loading: key to value. */
  type Properties = map<string, string>

  /** The characters of the regular-expression class \s. */
  predicate IsSpace(c: char) {
    c == ' ' || c == '\t' || c == '\n' || c == '\U{B}' || c == '\U{C}' || c == '\r'
  }

  /** The two separators: "\\s?,\\s?" of decks.core and "," of cards. */
  datatype Separator = FlexComma | PlainComma

  /**
   * The length of the separator match starting at the head of s, or 0.
   * The regex \s?,\s? matches an optional whitespace character, a comma,
   * and then greedily one more whitespace character if there is one.
   */
  function MatchLength(sep: Separator, s: string): (n: nat)
    ensures n <= |s|
    ensures n > 0 ==> ',' in s[..n]
  {
    if sep.PlainComma? then
      if |s| > 0 && s[0] == ',' then 1 else 0
    else if |s| > 0 && s[0] == ',' then
      if |s| > 1 && IsSpace(s[1]) then 2 else 1
    else if |s| > 1 && IsSpace(s[0]) && s[1] == ',' then
      if |s| > 2 && IsSpace(s[2]) then 3 else 2
    else 0
  }

  /**
   * The substrings between successive leftmost matches, scanning from the
   * left; acc is the part of the current substring already passed over.
   * Trailing empty substrings are still present.
   */
  function Scan(sep: Separator, s: string, acc: string): (r: seq<string>)
    ensures |r| >= 1
    decreases |s|
  {
    if s == [] then [acc]
    else
      var m := MatchLength(sep, s);
      if m > 0 then [acc] + Scan(sep, s[m..], "")
      else Scan(sep, s[1..], acc + [s[0]])
  }

  /** The list without its trailing empty strings. */
  function StripTrailingEmpty(r: seq<string>): (t: seq<string>)
    ensures t <= r
    ensures t == [] || t[|t| - 1] != ""
    ensures forall i :: |t| <= i < |r| ==> r[i] == ""
  {
    if r == [] || r[|r| - 1] != "" then r
    else StripTrailingEmpty(r[..|r| - 1])
  }

  /**
   * String.split(regex) with limit 0: the input itself when nothing
   * matches, otherwise the substrings without trailing empty strings.
   */
  function Split(sep: Separator, s: string): seq<string> {
    var raw := Scan(sep, s, "");
    if |raw| == 1 then raw else StripTrailingEmpty(raw)
  }

  /** No substring the scan produces contains a comma. */
  lemma {:induction false} ScanHasNoComma(sep: Separator, s: string, acc: string)
    requires ',' !in acc
    ensures forall i :: 0 <= i < |Scan(sep, s, acc)| ==> ',' !in Scan(sep, s, acc)[i]
  {
    if s != [] {
      var m := MatchLength(sep, s);
      if m > 0 {
        ScanHasNoComma(sep, s[m..], "");
      } else {
        assert s[0] != ',';
        ScanHasNoComma(sep, s[1..], acc + [s[0]]);
      }
    }
  }

  /** Joining with commas the substrings of a split at "," gives the string back. */
  function JoinWith(parts: seq<string>, sep: string): string
    requires |parts| >= 1
  {
    if |parts| == 1 then parts[0] else parts[0] + sep + JoinWith(parts[1..], sep)
  }

  lemma {:induction false} PlainScanJoins(s: string, acc: string)
    ensures JoinWith(Scan(PlainComma, s, acc), ",") == acc + s
  {
    if s != [] {
      if s[0] == ',' {
        PlainScanJoins(s[1..], "");
        assert s == "," + s[1..];
      } else {
        PlainScanJoins(s[1..], acc + [s[0]]);
        assert acc + [s[0]] + s[1..] == acc + s;
      }
    }
  }

  /** A list element that a split can give back: no comma and no trailing whitespace. */
  predicate Splittable(t: string) {
    ',' !in t && (t == [] || !IsSpace(t[|t| - 1]))
  }

  /** Scanning over a splittable piece moves it into the current substring. */
  lemma {:induction false} ScanOverPiece(sep: Separator, t: string, rest: string, acc: string)
    requires Splittable(t)
    ensures Scan(sep, t + rest, acc) == Scan(sep, rest, acc + t)
  {
    if t != [] {
      var s := t + rest;
      assert s[0] == t[0] && s[0] != ',';
      assert |t| > 1 ==> s[1] == t[1];
      assert MatchLength(sep, s) == 0;
      assert s[1..] == t[1..] + rest;
      assert Splittable(t[1..]) by {
        if t[1..] != [] { assert t[1..][|t[1..]| - 1] == t[|t| - 1]; }
      }
      ScanOverPiece(sep, t[1..], rest, acc + [t[0]]);
      assert acc + [t[0]] + t[1..] == acc + t;
    } else {
      assert t + rest == rest;
      assert acc + t == acc;
    }
  }

  /** The separator a list is written with: ", " for the regex, "," for the plain comma. */
  function Written(sep: Separator): string {
    if sep.FlexComma? then ", " else ","
  }

  /** Splitting a list written with its separator gives the list back, before trailing empties are dropped. */
  lemma {:induction false} ScanJoined(sep: Separator, parts: seq<string>)
    requires |parts| >= 1
    requires forall i :: 0 <= i < |parts| ==> Splittable(parts[i])
    ensures Scan(sep, JoinWith(parts, Written(sep)), "") == parts
  {
    var t := parts[0];
    if |parts| == 1 {
      assert JoinWith(parts, Written(sep)) == t + [];
      ScanOverPiece(sep, t, [], "");
      assert "" + t == t;
    } else {
      var more := parts[1..];
      var rest := Written(sep) + JoinWith(more, Written(sep));
      assert JoinWith(parts, Written(sep)) == t + rest;
      ScanOverPiece(sep, t, rest, "");
      assert "" + t == t;
      assert MatchLength(sep, rest) == |Written(sep)|;
      assert rest[|Written(sep)|..] == JoinWith(more, Written(sep));
      ScanJoined(sep, more);
      assert Scan(sep, rest, t) == [t] + more;
    }
  }

  /**
   * The round trip of a list property: written with its separator, a list of
   * splittable elements whose last element is not empty (or that has one
   * element) is read back as the same list.
   */
  lemma SplitJoined(sep: Separator, parts: seq<string>)
    requires |parts| >= 1
    requires forall i :: 0 <= i < |parts| ==> Splittable(parts[i])
    requires |parts| == 1 || parts[|parts| - 1] != ""
    ensures Split(sep, JoinWith(parts, Written(sep))) == parts
  {
    ScanJoined(sep, parts);
  }

  /** The elements of a split list never contain a comma. */
  lemma SplitHasNoComma(sep: Separator, s: string)
    ensures forall i :: 0 <= i < |Split(sep, s)| ==> ',' !in Split(sep, s)[i]
  {
    ScanHasNoComma(sep, s, "");
  }

  /** A run of k commas. */
  function Commas(k: nat): string {
    seq(k, _ => ',')
  }

  /** A plain-comma split joins back to the string, up to the trailing commas it drops. */
  lemma PlainSplitJoins(s: string)
    ensures |Split(PlainComma, s)| >= 1 ==>
      exists k: nat :: JoinWith(Split(PlainComma, s), ",") + Commas(k) == s
  {
    PlainScanJoins(s, "");
    var raw := Scan(PlainComma, s, "");
    var t := Split(PlainComma, s);
    if |t| >= 1 {
      if |raw| == 1 {
        assert JoinWith(t, ",") + Commas(0) == s;
      } else {
        JoinDropsEmptyTail(raw, |t|);
        assert t == raw[..|t|];
        assert JoinWith(t, ",") + Commas(|raw| - |t|) == s;
      }
    }
  }

  /** Dropping trailing empty strings from a comma-joined list drops only trailing commas. */
  lemma {:induction false} JoinDropsEmptyTail(raw: seq<string>, n: nat)
    requires 1 <= n <= |raw|
    requires forall i :: n <= i < |raw| ==> raw[i] == ""
    ensures JoinWith(raw[..n], ",") + Commas(|raw| - n) == JoinWith(raw, ",")
  {
    if n < |raw| {
      JoinDropsEmptyTail(raw[..|raw| - 1], n);
      assert raw[..|raw| - 1][..n] == raw[..n];
      JoinSnoc(raw[..|raw| - 1], "");
      assert raw[..|raw| - 1] + [""] == raw;
      assert Commas(|raw| - n) == Commas(|raw| - 1 - n) + ",";
    } else {
      assert raw[..n] == raw;
    }
  }

  lemma {:induction false} JoinSnoc(parts: seq<string>, last: string)
    requires |parts| >= 1
    ensures JoinWith(parts + [last], ",") == JoinWith(parts, ",") + "," + last
  {
    if |parts| > 1 {
      assert (parts + [last])[1..] == parts[1..] + [last];
      JoinSnoc(parts[1..], last);
    }
  }

  /** getString / getProperty: the value, or IllegalArgumentException naming the key. */
  function GetString(props: Properties, key: string): (r: Result<string>)
    ensures r.Ok? <==> key in props
    ensures r.Ok? ==> r.value == props[key]
    ensures r.Err? ==> r.error == IllegalArgument("Missing configuration property '" + key + "'.")
  {
    if key in props then Ok(props[key])
    else Err(IllegalArgument("Missing configuration property '" + key + "'."))
  }

  /** The decks.core Config: its properties. */
  datatype DecksConfig = DecksConfig(properties: Properties)

  /** Config(Properties): requireNonNull of the argument. */
  function NewDecksConfig(props: Option<Properties>): (r: Result<DecksConfig>)
    ensures r.Ok? <==> props.Some?
    ensures r.Ok? ==> r.value.properties == props.value
    ensures r.Err? ==> r.error == NullPointer
  {
    var p :- RequireNonNull(props);
    Ok(DecksConfig(p))
  }

  /**
   * getCommaSeparatedStringList: the property split at the separator, or
   * the empty list when the property is missing.
   */
  function GetCommaSeparatedStringList(sep: Separator, props: Properties, key: string): (r: seq<string>)
    ensures key !in props ==> r == []
    ensures key in props ==> r == Split(sep, props[key])
  {
    match GetString(props, key)
    case Err(_) => []
    case Ok(csv) => Split(sep, csv)
  }

  /**
   * A list written with "," or ", " between elements, as the documented
   * example is, where an element after a bare "," does not start with whitespace.
   */
  function JoinMixed(parts: seq<string>, gaps: seq<string>): string
    requires |parts| >= 1 && |gaps| == |parts| - 1
  {
    if |parts| == 1 then parts[0] else parts[0] + gaps[0] + JoinMixed(parts[1..], gaps[1..])
  }

  ghost predicate FlexGaps(parts: seq<string>, gaps: seq<string>)
    requires |gaps| == |parts| - 1
  {
    forall i :: 0 <= i < |gaps| ==>
      (gaps[i] == ", " || gaps[i] == ",")
      && (gaps[i] == "," && parts[i + 1] != [] ==> !IsSpace(parts[i + 1][0]))
  }

  /** The regex split reads back a list written with any mix of "," and ", " separators. */
  lemma {:induction false} ScanJoinedMixed(parts: seq<string>, gaps: seq<string>)
    requires |parts| >= 1 && |gaps| == |parts| - 1
    requires forall i :: 0 <= i < |parts| ==> Splittable(parts[i])
    requires FlexGaps(parts, gaps)
    ensures Scan(FlexComma, JoinMixed(parts, gaps), "") == parts
  {
    var t := parts[0];
    if |parts| == 1 {
      assert JoinMixed(parts, gaps) == t + [];
      ScanOverPiece(FlexComma, t, [], "");
      assert "" + t == t;
    } else {
      var more, gs := parts[1..], gaps[1..];
      var j := JoinMixed(more, gs);
      var rest := gaps[0] + j;
      assert JoinMixed(parts, gaps) == t + gaps[0] + j;
      assert t + gaps[0] + j == t + rest;
      assert forall i :: 0 <= i < |more| ==> Splittable(more[i]) by {
        forall i | 0 <= i < |more| ensures Splittable(more[i]) {
          assert more[i] == parts[i + 1];
        }
      }
      ScanOverPiece(FlexComma, t, rest, "");
      assert "" + t == t;
      FlexGapsTail(parts, gaps);
      JoinMixedStart(more, gs);
      GapMatches(gaps[0], j);
      assert Scan(FlexComma, rest, t) == [t] + Scan(FlexComma, j, "");
      ScanJoinedMixed(more, gs);
      assert [t] + more == parts;
    }
  }

  /** The separators after the first piece still follow the rules of a mixed list. */
  lemma FlexGapsTail(parts: seq<string>, gaps: seq<string>)
    requires |parts| >= 2 && |gaps| == |parts| - 1
    requires FlexGaps(parts, gaps)
    ensures FlexGaps(parts[1..], gaps[1..])
    ensures gaps[0] == ", " || gaps[0] == ","
    ensures gaps[0] == "," && parts[1] != [] ==> !IsSpace(parts[1][0])
  {
    assert 0 < |gaps|;
    forall i | 0 <= i < |gaps[1..]|
      ensures (gaps[1..][i] == ", " || gaps[1..][i] == ",")
        && (gaps[1..][i] == "," && parts[1..][i + 1] != [] ==> !IsSpace(parts[1..][i + 1][0]))
    {
      assert gaps[1..][i] == gaps[i + 1] && parts[1..][i + 1] == parts[i + 2];
    }
  }

  /** A mixed list starts with its first piece, or with a comma when that piece is empty. */
  lemma JoinMixedStart(parts: seq<string>, gaps: seq<string>)
    requires |parts| >= 1 && |gaps| == |parts| - 1
    requires |parts| > 1 ==> gaps[0] == ", " || gaps[0] == ","
    ensures parts[0] != [] ==> JoinMixed(parts, gaps) != [] && JoinMixed(parts, gaps)[0] == parts[0][0]
    ensures parts[0] == [] && JoinMixed(parts, gaps) != [] ==> JoinMixed(parts, gaps)[0] == ','
  {
    var j := JoinMixed(parts, gaps);
    if |parts| > 1 {
      var g := gaps[0];
      assert g[0] == ',';
      var tail := g + JoinMixed(parts[1..], gaps[1..]);
      assert tail[0] == g[0];
      assert j == parts[0] + tail;
      if parts[0] == [] {
        assert j == tail;
      }
    }
  }

  /** A separator of a mixed list is matched whole, and scanning resumes right after it. */
  lemma GapMatches(g: string, j: string)
    requires g == ", " || g == ","
    requires g == "," && j != [] ==> !IsSpace(j[0])
    ensures MatchLength(FlexComma, g + j) == |g|
    ensures (g + j)[|g|..] == j
  {
    var s := g + j;
    assert s[0] == ',';
    if g == ", " {
      assert s[1] == ' ';
    } else if j != [] {
      assert s[1] == j[0];
    }
  }

  /** Splitting a mixed list of two or more elements, the last one not empty, gives the elements back. */
  lemma SplitJoinedMixed(parts: seq<string>, gaps: seq<string>)
    requires |parts| >= 2 && |gaps| == |parts| - 1
    requires forall i :: 0 <= i < |parts| ==> Splittable(parts[i])
    requires FlexGaps(parts, gaps)
    requires parts[|parts| - 1] != ""
    ensures Split(FlexComma, JoinMixed(parts, gaps)) == parts
  {
    ScanJoinedMixed(parts, gaps);
  }

  /** The elements and separators of the example list of the decks.core documentation. */
  const DocumentedParts: seq<string> := ["1", "2", "3", "string", "test"]
  const DocumentedGaps: seq<string> := [",", ", ", ", ", ", "]

  lemma DocumentedJoin()
    ensures JoinMixed(DocumentedParts, DocumentedGaps) == "1,2, 3, string, test"
  {
    var parts, gaps := DocumentedParts, DocumentedGaps;
    assert JoinMixed(parts[4..], gaps[4..]) == "test";
    assert JoinMixed(parts[3..], gaps[3..]) == "string" + ", " + "test";
    assert JoinMixed(parts[2..], gaps[2..]) == "3" + ", " + "string, test";
    assert JoinMixed(parts[1..], gaps[1..]) == "2" + ", " + "3, string, test";
    assert JoinMixed(parts, gaps) == "1" + "," + "2, 3, string, test";
  }

  lemma DocumentedPieces()
    ensures forall i :: 0 <= i < |DocumentedParts| ==> Splittable(DocumentedParts[i])
    ensures FlexGaps(DocumentedParts, DocumentedGaps)
  {
  }

  /** The example of the decks.core documentation: "1,2, 3, string, test". */
  lemma DocumentedListExample(props: Properties)
    requires props == map["test.someList" := "1,2, 3, string, test"]
    ensures GetCommaSeparatedStringList(FlexComma, props, "test.someList") == ["1", "2", "3", "string", "test"]
  {
    DocumentedJoin();
    DocumentedPieces();
    SplitJoinedMixed(DocumentedParts, DocumentedGaps);
  }

  /** The cards Config: the sender read at construction, and the properties. */
  datatype CardsConfig = CardsConfig(sender: string, properties: Properties)

  /** properties.getProperty on a field that may still be null. */
  function GetPropertyOf(props: Option<Properties>, key: string): (r: Result<string>)
    ensures props.None? ==> r == Err(NullPointer)
    ensures props.Some? ==> r == GetString(props.value, key)
  {
    var p :- RequireNonNull(props);
    GetString(p, key)
  }

  /**
   * Constructing a cards Config: the initializer of the sender field reads
   * through whatever the properties field holds at that moment, then the
   * constructor body stores the non-null argument.
   */
  function ConstructCardsConfig(fieldAtInit: Option<Properties>, props: Option<Properties>): (r: Result<CardsConfig>)
    ensures fieldAtInit.None? ==> r == Err(NullPointer)
    ensures r.Ok? ==> props.Some? && r.value.properties == props.value
    ensures r.Ok? ==> fieldAtInit.Some? && "sender" in fieldAtInit.value && r.value.sender == fieldAtInit.value["sender"]
  {
    var sender :- GetPropertyOf(fieldAtInit, "sender");
    var p :- RequireNonNull(props);
    Ok(CardsConfig(sender, p))
  }

  /**
   * Config(Properties) of cards as written: field initializers run before the
   * constructor body, so the properties field still holds its default, null.
   */
  function NewCardsConfigAsWritten(props: Option<Properties>): Result<CardsConfig> {
    ConstructCardsConfig(None, props)
  }

  /** No cards Config is ever constructed: every call throws NullPointerException, whatever the properties. */
  lemma CardsConfigNeverConstructs(props: Option<Properties>)
    ensures NewCardsConfigAsWritten(props) == Err(NullPointer)
  {
  }

  /** Config(Properties) of cards as intended: the sender is read from the properties being stored. */
  function NewCardsConfig(props: Option<Properties>): (r: Result<CardsConfig>)
    ensures r.Ok? <==> props.Some? && "sender" in props.value
    ensures r.Ok? ==> r.value.properties == props.value && r.value.sender == props.value["sender"]
    ensures props.None? ==> r == Err(NullPointer)
    ensures props.Some? && "sender" !in props.value ==> r == Err(IllegalArgument("Missing configuration property 'sender'."))
  {
    ConstructCardsConfig(props, props)
  }
}
