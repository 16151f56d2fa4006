/** Cutting counter names into segments, and the document made from named counters
    (src/h9d/metrics_collector.cc:21-68). */
module MetricNames {
  import opened Metrics

  /** The characters of a tag, an argument or its value. */
  predicate Word(c: char) { 'A' <= c <= 'Z' || 'a' <= c <= 'z' || '0' <= c <= '9' || c == '_' || c == '-' }

  predicate Words(s: string) { s != "" && forall i :: 0 <= i < |s| ==> Word(s[i]) }

  /** Length of the longest run of word characters at the start. */
  function Run(s: string): (n: nat)
    ensures n <= |s| && (forall i :: 0 <= i < n ==> Word(s[i])) && (n < |s| ==> !Word(s[n]))
  {
    if s == "" || !Word(s[0]) then 0 else 1 + Run(s[1..])
  }

  /** `[arg=value]` at the start, if it is there. */
  function Tail(s: string): (r: (bool, string, string)) {
    if s == "" || s[0] != '[' then (false, "", "")
    else
      var arg := Run(s[1..]);
      var t := s[1 + arg..];
      if arg == 0 || t == "" || t[0] != '=' then (false, "", "")
      else
        var value := Run(t[1..]);
        if value == 0 || 1 + value >= |t| || t[1 + value] != ']' then (false, "", "")
        else (true, s[1..1 + arg], t[1..1 + value])
  }

  /** The leftmost match of the pattern in a piece; a piece without a word is passed over. */
  function SegmentOf(s: string): seq<Segment> {
    if s == "" then []
    else if !Word(s[0]) then SegmentOf(s[1..])
    else
      var n := Run(s);
      var (tagged, arg, value) := Tail(s[n..]);
      if tagged then [Tagged(s[..n], arg, value)] else [Plain(s[..n])]
  }

  /** Place of the first dot. */
  function Dot(s: string): (n: nat)
    ensures n <= |s| && (forall i :: 0 <= i < n ==> s[i] != '.') && (n < |s| ==> s[n] == '.')
  {
    if s == "" || s[0] == '.' then 0 else 1 + Dot(s[1..])
  }

  function Parse(name: string): seq<Segment>
    decreases |name|
  {
    var n := Dot(name);
    SegmentOf(name[..n]) + if n < |name| then Parse(name[n + 1..]) else []
  }

  // ---- a name written from its segments is cut into them again ----

  function Written(s: Segment): string {
    match s
    case Plain(tag) => tag
    case Tagged(tag, arg, value) => tag + "[" + arg + "=" + value + "]"
  }

  predicate WellSpelt(s: Segment) { Words(s.tag) && (s.Tagged? ==> Words(s.arg) && Words(s.value)) }

  function Name(path: seq<Segment>): string
    requires path != []
  {
    if |path| == 1 then Written(path[0]) else Written(path[0]) + "." + Name(path[1..])
  }

  lemma {:induction false} RunOf(w: string, rest: string)
    requires forall i :: 0 <= i < |w| ==> Word(w[i])
    requires rest == "" || !Word(rest[0])
    ensures Run(w + rest) == |w|
  {
    if w != "" {
      assert (w + rest)[1..] == w[1..] + rest;
      RunOf(w[1..], rest);
    } else {
      assert w + rest == rest;
    }
  }

  lemma TailOf(arg: string, value: string)
    requires Words(arg) && Words(value)
    ensures Tail("[" + arg + "=" + value + "]") == (true, arg, value)
  {
    var t := "=" + value + "]";
    var s := "[" + arg + "=" + value + "]";
    hide Run;
    RunOf(arg, t);
    RunOf(value, "]");
    assert s[1..] == arg + t && s[1 + |arg|..] == t && s[1..1 + |arg|] == arg;
    assert t[1..] == value + "]" && t[1..1 + |value|] == value;
  }

  lemma SegmentRoundTrip(s: Segment)
    requires WellSpelt(s)
    ensures SegmentOf(Written(s)) == [s]
  {
    match s
    case Plain(tag) =>
      RunOf(tag, "");
      assert tag + "" == tag && tag[..|tag|] == tag;
    case Tagged(tag, arg, value) =>
      var tail := "[" + arg + "=" + value + "]";
      assert Written(s) == tag + tail;
      RunOf(tag, tail);
      TailOf(arg, value);
      assert (tag + tail)[|tag|..] == tail && (tag + tail)[..|tag|] == tag;
  }

  lemma {:induction false} DotOf(w: string, rest: string)
    requires forall i :: 0 <= i < |w| ==> w[i] != '.'
    requires rest == "" || rest[0] == '.'
    ensures Dot(w + rest) == |w|
  {
    if w != "" {
      assert (w + rest)[1..] == w[1..] + rest;
      DotOf(w[1..], rest);
    } else {
      assert w + rest == rest;
    }
  }

  lemma WrittenHasNoDot(s: Segment)
    requires WellSpelt(s)
    ensures forall i :: 0 <= i < |Written(s)| ==> Written(s)[i] != '.'
  {
  }

  lemma ParseLast(w: string)
    requires forall i :: 0 <= i < |w| ==> w[i] != '.'
    ensures Parse(w) == SegmentOf(w)
  {
    hide SegmentOf;
    DotOf(w, "");
    assert w + "" == w && w[..|w|] == w;
  }

  lemma ParseFirst(w: string, rest: string)
    requires forall i :: 0 <= i < |w| ==> w[i] != '.'
    ensures Parse(w + "." + rest) == SegmentOf(w) + Parse(rest)
  {
    hide SegmentOf;
    DotOf(w, "." + rest);
    var name := w + "." + rest;
    assert name == w + ("." + rest);
    assert name[..|w|] == w && name[|w| + 1..] == rest;
  }

  /** The name of any list of segments spelt with word characters is cut into just these. */
  lemma {:induction false} NameRoundTrip(path: seq<Segment>)
    requires path != [] && forall i :: 0 <= i < |path| ==> WellSpelt(path[i])
    ensures Parse(Name(path)) == path
  {
    hide SegmentOf, Parse, Written, WellSpelt;
    SegmentRoundTrip(path[0]);
    WrittenHasNoDot(path[0]);
    if |path| == 1 {
      ParseLast(Written(path[0]));
    } else {
      NameRoundTrip(path[1..]);
      ParseFirst(Written(path[0]), Name(path[1..]));
      assert path == [path[0]] + path[1..];
    }
  }

  // ---- what the pattern takes of any piece ----

  /** The characters are the 64 of the pattern, here by their ASCII codes. */
  lemma WordsAre(c: char)
    ensures Word(c) <==> var n := c as int; 48 <= n <= 57 || 65 <= n <= 90 || 97 <= n <= 122 || n == 95 || n == 45
  {
  }

  /** What precedes the first word is passed over. */
  lemma {:induction false} LeadingSkipped(junk: string, s: string)
    requires forall i :: 0 <= i < |junk| ==> !Word(junk[i])
    ensures SegmentOf(junk + s) == SegmentOf(s)
  {
    hide Word;
    if junk == "" {
      assert junk + s == s;
    } else {
      assert (junk + s)[1..] == junk[1..] + s;
      LeadingSkipped(junk[1..], s);
    }
  }

  /** A tag counts whatever follows it in the piece. */
  lemma TagCounts(w: string, arg: string, value: string, more: string)
    requires Words(w) && Words(arg) && Words(value)
    ensures SegmentOf(w + ("[" + (arg + ("=" + (value + ("]" + more)))))) == [Tagged(w, arg, value)]
  {
    hide *;
    var t := "[" + (arg + ("=" + (value + ("]" + more))));
    TagRead(arg, value, more);
    WordThenTag(w, t);
  }

  lemma WordThenTag(w: string, t: string)
    requires Words(w) && t != "" && t[0] == '[' && Tail(t).0
    ensures SegmentOf(w + t) == [Tagged(w, Tail(t).1, Tail(t).2)]
  {
    hide Run, Tail;
    RunUpTo(w, t);
    assert (w + t)[..|w|] == w && (w + t)[|w|..] == t;
  }

  lemma RunUpTo(w: string, rest: string)
    requires Words(w) && rest != "" && rest[0] in {'[', '=', ']'}
    ensures Run(w + rest) == |w| > 0
  {
    hide Run;
    RunOf(w, rest);
  }

  lemma TagRead(arg: string, value: string, more: string)
    requires Words(arg) && Words(value)
    ensures var t := "[" + (arg + ("=" + (value + ("]" + more)))); t[0] == '[' && Tail(t) == (true, arg, value)
  {
    hide *;
    var t := "=" + (value + ("]" + more));
    RunUpTo(value, "]" + more);
    Cut("=", value, "]" + more);
    RunUpTo(arg, t);
    Cut("[", arg, t);
    TailUnfolds("[" + (arg + t), |arg|, t, |value|);
  }

  lemma Cut(first: string, a: string, b: string)
    ensures var s, n := first + (a + b), |first|;
            s[n..] == a + b && s[n..n + |a|] == a && s[n + |a|..] == b && (n > 0 ==> s[0] == first[0])
  {
  }

  lemma TailUnfolds(s: string, n: nat, t: string, k: nat)
    requires s != "" && s[0] == '[' && n == Run(s[1..]) && 0 < n && t == s[1 + n..]
    requires t != "" && t[0] == '=' && k == Run(t[1..]) && 0 < k && 1 + k < |t| && t[1 + k] == ']'
    ensures Tail(s) == (true, s[1..1 + n], t[1..1 + k])
  {
    hide Run;
  }

  /** Without a complete one a word is a segment of its own. */
  lemma NoTagNoArgument(w: string, rest: string)
    requires Words(w) && (rest == "" || !Word(rest[0]))
    requires forall arg, value, more :: Words(arg) && Words(value) ==>
               rest != "[" + (arg + ("=" + (value + ("]" + more))))
    ensures SegmentOf(w + rest) == [Plain(w)]
  {
    hide Run, Tail;
    RunOf(w, rest);
    assert (w + rest)[|w|..] == rest && (w + rest)[..|w|] == w;
    if Tail(rest).0 { var more := TailForm(rest); }
  }

  lemma TailForm(s: string) returns (more: string)
    requires Tail(s).0
    ensures var (_, arg, value) := Tail(s);
            Words(arg) && Words(value) && s == "[" + (arg + ("=" + (value + ("]" + more))))
  {
    hide *;
    var n, t, k := TailFinds(s);
    WordsThere(s, n);
    WordsThere(t, k);
    Pieces(s, "[", n);
    Pieces(t, "=", k);
    more := Last(t[1 + k..]);
  }

  lemma TailFinds(s: string) returns (n: nat, t: string, k: nat)
    requires Tail(s).0
    ensures s != "" && s[0] == '[' && 0 < n <= |s[1..]| && t == s[1 + n..] && forall i :: 0 <= i < n ==> Word(s[1..][i])
    ensures t != "" && t[0] == '=' && 0 < k <= |t[1..]| && forall i :: 0 <= i < k ==> Word(t[1..][i])
    ensures 1 + k < |t| && t[1 + k] == ']' && Tail(s) == (true, s[1..1 + n], t[1..1 + k])
  {
    hide Run, Word;
    n := Run(s[1..]);
    t := s[1 + n..];
    k := Run(t[1..]);
  }

  lemma Last(u: string) returns (more: string)
    requires u != "" && u[0] == ']'
    ensures u == "]" + more
  {
    more := u[1..];
  }

  lemma WordsThere(s: string, n: nat)
    requires s != "" && 0 < n <= |s[1..]| && forall i :: 0 <= i < n ==> Word(s[1..][i])
    ensures Words(s[1..1 + n])
  {
    hide Word;
    assert s[1..][..n] == s[1..1 + n];
  }

  lemma Pieces(s: string, first: string, n: nat)
    requires |first| == 1 && 1 + n <= |s| && s[0] == first[0]
    ensures s == first + (s[1..1 + n] + s[1 + n..])
  {
  }

  /** The counters of an endpoint lie below the item of its name. */
  lemma EndpointCounter(name: string)
    requires Words(name)
    ensures Parse("bus.endpoints[name=" + name + "].send_frames")
         == [Plain("bus"), Tagged("endpoints", "name", name), Plain("send_frames")]
  {
    hide Parse, Words, SegmentOf;
    var endpoint := Tagged("endpoints", "name", name);
    SpeltWell();
    SegmentRoundTrip(endpoint);
    WrittenHasNoDot(endpoint);
    ParsePlain("send_frames");
    ParsePlain("bus");
    var w := Written(endpoint);
    ParseFirst(w, "send_frames");
    ParseFirst("bus", w + "." + "send_frames");
    assert "bus.endpoints[name=" + name + "].send_frames" == "bus" + "." + (w + "." + "send_frames");
  }

  lemma SpeltWell()
    ensures Words("bus") && Words("endpoints") && Words("name") && Words("send_frames")
  {
  }

  lemma ParsePlain(tag: string)
    requires Words(tag)
    ensures Parse(tag) == [Plain(tag)] == SegmentOf(tag) && forall i :: 0 <= i < |tag| ==> tag[i] != '.'
  {
    SegmentRoundTrip(Plain(tag));
    WrittenHasNoDot(Plain(tag));
    ParseLast(tag);
  }

  // ---- the program ----

  datatype Named = Named(name: string, value: nat)

  function Counters(cs: seq<Named>): (r: seq<Counter>)
    ensures |r| == |cs| && forall i :: 0 <= i < |r| ==> r[i] == Counter(Parse(cs[i].name), cs[i].value)
  {
    if cs == [] then [] else Counters(cs[..|cs| - 1]) + [Counter(Parse(cs[|cs| - 1].name), cs[|cs| - 1].value)]
  }

  method FindDot(s: string) returns (n: nat)
    ensures n == Dot(s)
  {
    n := 0;
    while n < |s| && s[n] != '.'
      invariant n <= |s| && forall i :: 0 <= i < n ==> s[i] != '.'
    {
      n := n + 1;
    }
    FirstDot(s, n);
  }

  method ParseName(name: string) returns (path: seq<Segment>)
    ensures path == Parse(name)
  {
    hide SegmentOf, Dot;
    path := [];
    var rest := name;
    var n := FindDot(rest);
    while n < |rest|
      invariant n == Dot(rest) && path + Parse(rest) == Parse(name)
      decreases |rest|
    {
      path := path + SegmentOf(rest[..n]);
      rest := rest[n + 1..];
      n := FindDot(rest);
    }
    path := path + SegmentOf(rest[..n]);
  }

  lemma FirstDot(s: string, n: nat)
    requires n <= |s| && (forall i :: 0 <= i < n ==> s[i] != '.') && (n < |s| ==> s[n] == '.')
    ensures Dot(s) == n
  {
    if Dot(s) < n { assert false; }
  }

  method MetricsToJson(uptime: nat, counters: seq<Named>) returns (j: Json)
    requires Consistent(Counters(counters))
    ensures j == Build(uptime, Counters(counters)) && Agrees(uptime, Counters(counters))
  {
    hide Apart, Proper, Accepts, Agrees, Insert, Parse;
    ghost var cs := Counters(counters);
    j := Root(uptime);
    for i := 0 to |counters|
      invariant j == Build(uptime, cs[..i])
    {
      assert cs[..i + 1][..i] == cs[..i];
      assert forall k :: 0 <= k < i ==> cs[..i][k] == cs[k];
      StillAccepted(uptime, cs[..i], cs[i].path);
      AcceptedWalks(j, cs[i].path);
      var path := ParseName(counters[i].name);
      j := InsertCounter(j, path, counters[i].value);
    }
    assert cs[..|counters|] == cs;
    TreeAgrees(uptime, cs);
  }
}
