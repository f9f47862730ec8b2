/**
 The keywords that start an option (opt.go): a complete word of the grammar, told
 by its first byte.
 */
module Keywords {
  import opened Ipfw
  import opened Lex

  /** Where a keyword ends: at white space, at the brace of a tight group, at an
      adjacent comment or at a separator. */
  predicate Boundary(rest: string) {
    || rest == "" || IsASCIISpace(rest[0]) || rest[0] == '}' || "//" <= rest
    || (rest[0] == '|' && AtTokenEnd(rest[1..]))
  }

  predicate OptionKeyword(s: string, keyword: string) {
    keyword <= s && Boundary(s[|keyword|..])
  }

  /** An option with an argument and the length of its keyword. */
  function ArgumentOption(s: string): (r: (OptKind, nat))
    ensures r.1 <= |s| && (r.0 == OptUnset <==> r.1 == 0)
  {
    if s == "" then (OptUnset, 0)
    else match s[0]
      case '/' => if "//" <= s then (OptComment, 2) else (OptUnset, 0)
      case 's' => if OptionKeyword(s, "src-port") then (OptSourcePort, 8) else (OptUnset, 0)
      case 'd' => if OptionKeyword(s, "dst-port") then (OptDestinationPort, 8) else (OptUnset, 0)
      case 'i' =>
        if OptionKeyword(s, "icmptypes") then (OptICMPTypes, 9)
        else if OptionKeyword(s, "icmptype") then (OptICMPTypes, 8)
        else if OptionKeyword(s, "icmp6types") then (OptICMP6Types, 10)
        else if OptionKeyword(s, "icmp6type") then (OptICMP6Types, 9)
        else (OptUnset, 0)
      case 'k' => if OptionKeyword(s, "keep-state") then (OptKeepState, 10) else (OptUnset, 0)
      case 'p' => if OptionKeyword(s, "proto") then (OptProto, 5) else (OptUnset, 0)
      case 't' =>
        if OptionKeyword(s, "tcpflags") then (OptTCPFlags, 8)
        else if OptionKeyword(s, "tcpflgs") then (OptTCPFlags, 7)
        else (OptUnset, 0)
      case 'v' => if OptionKeyword(s, "via") then (OptVia, 3) else (OptUnset, 0)
      case _ => (OptUnset, 0)
  }

  /** An option without an argument and what follows it. */
  function KeywordOption(s: string): (r: Option<(OptKind, string)>)
    ensures r.Some? ==> |r.value.1| < |s|
  {
    if s == "" then None
    else match s[0]
      case 'a' => Keyword(s, "antispoof", OptAntiSpoof)
      case 'd' => Keyword(s, "diverted", OptDiverted)
      case 'e' =>
        if OptionKeyword(s, "established") then Keyword(s, "established", OptEstablished)
        else Keyword(s, "estab", OptEstablished)
      case 'f' =>
        if OptionKeyword(s, "fragment") then Keyword(s, "fragment", OptFrag)
        else Keyword(s, "frag", OptFrag)
      case 'i' => Keyword(s, "in", OptIn)
      case 'o' => Keyword(s, "out", OptOut)
      case _ => None
  }

  function Keyword(s: string, keyword: string, kind: OptKind): (r: Option<(OptKind, string)>)
    ensures r.Some? ==> |r.value.1| == |s| - |keyword|
  {
    if OptionKeyword(s, keyword) then Some((kind, s[|keyword|..])) else None
  }

  const KEYWORDS: set<string> := {
    "src-port", "dst-port", "keep-state", "icmptypes", "icmptype", "icmp6types", "icmp6type", "proto", "tcpflags",
    "tcpflgs", "via", "antispoof", "diverted", "established", "estab", "fragment", "frag", "in", "out"}

  predicate StartsOption(s: string) {
    ArgumentOption(s).0 != OptUnset || KeywordOption(s).Some?
  }

  /** An option starts with a comment or a complete keyword. */
  lemma StartsOptionIff(s: string)
    ensures StartsOption(s) <==> "//" <= s || exists keyword :: keyword in KEYWORDS && OptionKeyword(s, keyword)
  {
    hide StartsOption, KEYWORDS, OptionKeyword;
    if StartsOption(s) && !("//" <= s) {
      var keyword := KeywordOf(s);
    }
    if "//" <= s {
      CommentStarts(s);
    }
    forall keyword | keyword in KEYWORDS && OptionKeyword(s, keyword) ensures StartsOption(s) {
      KeywordStarts(s, keyword);
    }
  }

  lemma CommentStarts(s: string)
    requires "//" <= s
    ensures StartsOption(s)
  {
  }

  lemma KeywordStarts(s: string, keyword: string)
    requires keyword in KEYWORDS && OptionKeyword(s, keyword)
    ensures StartsOption(s)
  {
    hide Boundary;
    assert s[0] == keyword[0];
  }

  lemma KeywordOf(s: string) returns (keyword: string)
    requires StartsOption(s) && !("//" <= s)
    ensures keyword in KEYWORDS && OptionKeyword(s, keyword)
  {
    hide OptionKeyword;
    if ArgumentOption(s).0 != OptUnset {
      match ArgumentOption(s).0 {
        case OptSourcePort => keyword := "src-port";
        case OptDestinationPort => keyword := "dst-port";
        case OptICMPTypes => keyword := if OptionKeyword(s, "icmptypes") then "icmptypes" else "icmptype";
        case OptICMP6Types => keyword := if OptionKeyword(s, "icmp6types") then "icmp6types" else "icmp6type";
        case OptKeepState => keyword := "keep-state";
        case OptProto => keyword := "proto";
        case OptTCPFlags => keyword := if OptionKeyword(s, "tcpflags") then "tcpflags" else "tcpflgs";
        case _ => keyword := "via";
      }
    } else {
      match s[0] {
        case 'a' => keyword := "antispoof";
        case 'd' => keyword := "diverted";
        case 'e' => keyword := if OptionKeyword(s, "established") then "established" else "estab";
        case 'f' => keyword := if OptionKeyword(s, "fragment") then "fragment" else "frag";
        case 'i' => keyword := "in";
        case _ => keyword := "out";
      }
    }
  }
}
