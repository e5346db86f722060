/** `toWebVtt` and `vttTime`: the printed subtitle file, and a reader of it after sections 4.1
    and 6 of WebVTT. */
module WebVtt {
  import opened Decimal
  import opened JsText
  import opened Wrappers

  datatype Cue = Cue(from: real, to: real, content: string)

  /** A cue as a reader sees it, with times in milliseconds. */
  datatype Shown = Shown(id: string, from: nat, to: nat, text: string)

  const HEADER := "WEBVTT"

  const ARROW := '\U{2192}'

  // ----- Times -----

  /** `Math.max(0, Math.round(seconds * 1000))`; ties go up. */
  function Milliseconds(seconds: real): nat {
    var rounded := (seconds * 1000.0 + 0.5).Floor;
    if rounded < 0 then 0 else rounded
  }

  datatype Clock = Clock(hours: nat, minutes: nat, seconds: nat, ms: nat) {
    predicate Valid() { minutes < 60 && seconds < 60 && ms < 1000 }

    function Total(): nat { hours * 3600000 + minutes * 60000 + seconds * 1000 + ms }

    function Stamp(): string {
      Pad(hours, 2) + ":" + Pad(minutes, 2) + ":" + Pad(seconds, 2) + "." + Pad(ms, 3)
    }
  }

  function ClockOf(ms: nat): Clock {
    Clock(ms / 3600000, ms % 3600000 / 60000, ms % 60000 / 1000, ms % 1000)
  }

  function TimeText(ms: nat): string {
    ClockOf(ms).Stamp()
  }

  function VttTime(seconds: real): string {
    TimeText(Milliseconds(seconds))
  }

  /** A field of exactly so many digits, below a bound. */
  function ReadField(s: string, bound: nat): Option<nat> {
    if IsNumeral(s) && Value(s) < bound then Some(Value(s)) else None
  }

  /** Hours of two digits or more, two digits of minutes, two of seconds, three of milliseconds. */
  function ReadTime(s: string): Option<nat> {
    var n := |s|;
    if n < 12 || s[n - 10] != ':' || s[n - 7] != ':' || s[n - 4] != '.' || !IsNumeral(s[..n - 10]) then None
    else
      var minutes, seconds, ms := ReadField(s[n - 9..n - 7], 60), ReadField(s[n - 6..n - 4], 60), ReadField(s[n - 3..], 1000);
      if minutes.None? || seconds.None? || ms.None? then None
      else Some(Value(s[..n - 10]) * 3600000 + minutes.value * 60000 + seconds.value * 1000 + ms.value)
  }

  lemma Concatenated(h: string, m: string, s: string, z: string)
    requires |m| == 2 && |s| == 2 && |z| == 3
    ensures var t := h + ":" + m + ":" + s + "." + z;
            var n := |t|;
            && n == |h| + 10
            && t[n - 10] == ':' && t[n - 7] == ':' && t[n - 4] == '.'
            && t[..n - 10] == h && t[n - 9..n - 7] == m && t[n - 6..n - 4] == s && t[n - 3..] == z
  {
  }

  lemma Remainders(a: nat, q: nat, r: nat)
    ensures a == q * 60000 + r && r < 60000 ==> a % 60000 == r
    ensures a == q * 1000 + r && r < 1000 ==> a % 1000 == r
  {
  }

  lemma NestedMod(ms: nat)
    ensures ms % 3600000 % 60000 == ms % 60000 && ms % 60000 % 1000 == ms % 1000
  {
    var q, r := ms / 3600000, ms % 3600000;
    Remainders(ms, q * 60 + r / 60000, r % 60000);
    var p, t := ms / 60000, ms % 60000;
    Remainders(ms, p * 60 + t / 1000, t % 1000);
  }

  lemma ClockTotal(ms: nat)
    ensures ClockOf(ms).Valid() && ClockOf(ms).Total() == ms
  {
    NestedMod(ms);
    var rest := ms % 3600000;
    assert rest == rest / 60000 * 60000 + ms % 60000;
  }

  lemma StampRoundTrip(c: Clock)
    requires c.Valid()
    ensures ReadTime(c.Stamp()) == Some(c.Total()) && TimeChars(c.Stamp())
  {
    assert Power10(2) == 100 && Power10(3) == 1000;
    PadValue(c.hours, 2);
    PadField(c.minutes, 2);
    PadField(c.seconds, 2);
    PadField(c.ms, 3);
    Concatenated(Pad(c.hours, 2), Pad(c.minutes, 2), Pad(c.seconds, 2), Pad(c.ms, 3));
    Joined(Pad(c.hours, 2), ':', Pad(c.minutes, 2));
    Joined(Pad(c.hours, 2) + ":" + Pad(c.minutes, 2), ':', Pad(c.seconds, 2));
    Joined(Pad(c.hours, 2) + ":" + Pad(c.minutes, 2) + ":" + Pad(c.seconds, 2), '.', Pad(c.ms, 3));
  }

  predicate TimeChars(s: string) {
    forall i | 0 <= i < |s| :: IsDigit(s[i]) || s[i] == ':' || s[i] == '.'
  }

  lemma Joined(a: string, c: char, b: string)
    requires TimeChars(a) && TimeChars(b) && (c == ':' || c == '.')
    ensures TimeChars(a + [c] + b)
  {
  }

  lemma PadField(n: nat, width: nat)
    requires width > 0 && n < Power10(width)
    ensures IsNumeral(Pad(n, width)) && Value(Pad(n, width)) == n && |Pad(n, width)| == width
  {
    PadValue(n, width);
    PadLength(n, width);
  }

  /** Reading a printed time gives its milliseconds back. */
  lemma TimeRoundTrip(ms: nat)
    ensures ReadTime(TimeText(ms)) == Some(ms) && TimeChars(TimeText(ms))
  {
    ClockTotal(ms);
    StampRoundTrip(ClockOf(ms));
  }

  /** Printed times keep the order of the times they round, to half a millisecond. */
  lemma TimeOrder(x: real, y: real)
    ensures x <= y ==> Milliseconds(x) <= Milliseconds(y)
    ensures VttTime(x) == VttTime(y) <==> Milliseconds(x) == Milliseconds(y)
    ensures x <= 0.0 ==> Milliseconds(x) == 0
    ensures x >= 0.0 ==> -0.5 < Milliseconds(x) as real - x * 1000.0 <= 0.5
  {
    TimeRoundTrip(Milliseconds(x));
    TimeRoundTrip(Milliseconds(y));
    if x <= y {
      assert x * 1000.0 + 0.5 <= y * 1000.0 + 0.5;
    }
  }

  // ----- Cues -----

  /** A cue as the service sends it; a time is absent when it is not a finite number. */
  datatype Raw = Raw(from: Option<real>, to: Option<real>, content: string)

  function ValidCues(raw: seq<Raw>): (r: seq<Cue>)
    ensures forall i | 0 <= i < |r| :: r[i].to > r[i].from && r[i].content != "" && Trim(r[i].content) == r[i].content
  {
    if raw == [] then []
    else
      var c := raw[0];
      TrimTwice(c.content);
      (if c.from.Some? && c.to.Some? && c.to.value > c.from.value && Trim(c.content) != ""
       then [Cue(c.from.value, c.to.value, Trim(c.content))] else []) + ValidCues(raw[1..])
  }

  /** The cue the raw one stands for, if it has both times, ends after it begins and is not blank. */
  ghost predicate IsCue(raw: Raw, cue: Cue) {
    && raw.from == Some(cue.from) && raw.to == Some(cue.to) && cue.from < cue.to
    && cue.content == Trim(raw.content) && cue.content != ""
  }

  /** `at` places the cues among the raw ones that stand for one. */
  ghost predicate Passes(raw: seq<Raw>, cues: seq<Cue>, at: seq<nat>) {
    && |at| == |cues|
    && (forall i | 0 <= i < |at| :: at[i] < |raw| && IsCue(raw[at[i]], cues[i]))
    && (forall i, j | 0 <= i < j < |at| :: at[i] < at[j])
  }

  ghost predicate StandsForNone(raw: Raw) {
    forall cue :: !IsCue(raw, cue)
  }

  ghost predicate PassesAll(raw: seq<Raw>, at: seq<nat>) {
    forall k: nat | k < |raw| && k !in at :: StandsForNone(raw[k])
  }

  function Shifted(at: seq<nat>): (r: seq<nat>)
    ensures |r| == |at| && forall i | 0 <= i < |r| :: r[i] == at[i] + 1
  {
    seq(|at|, i requires 0 <= i < |at| => at[i] + 1)
  }

  lemma PassesSkip(c: Raw, raw: seq<Raw>, cues: seq<Cue>, at: seq<nat>)
    requires Passes(raw, cues, at)
    ensures Passes([c] + raw, cues, Shifted(at))
  {
    assert forall i | 0 <= i < |raw| :: ([c] + raw)[i + 1] == raw[i];
  }

  lemma PassesFirst(raw: seq<Raw>, cue: Cue, cues: seq<Cue>, at: seq<nat>)
    requires raw != [] && IsCue(raw[0], cue) && Passes(raw, cues, at) && 0 !in at
    ensures Passes(raw, [cue] + cues, [0] + at)
  {
    forall i | 0 <= i < |at| ensures 0 < at[i] {
      assert at[i] in at;
    }
  }

  lemma PassesAllCons(c: Raw, raw: seq<Raw>, at: seq<nat>, first: seq<nat>)
    requires PassesAll(raw, at) && (first == [0] || (first == [] && StandsForNone(c)))
    ensures PassesAll([c] + raw, first + Shifted(at))
  {
    forall k: nat | k < |[c] + raw| && k !in first + Shifted(at) ensures StandsForNone(([c] + raw)[k]) {
      if k > 0 {
        forall i | 0 <= i < |at| ensures at[i] != k - 1 {
          assert Shifted(at)[i] in first + Shifted(at);
        }
      } else {
        assert first == [0] ==> 0 in first;
      }
    }
  }

  lemma OneMoreRaw(c: Raw, raw: seq<Raw>, cues: seq<Cue>, rest: seq<nat>) returns (first: seq<Cue>, at: seq<nat>)
    requires Passes(raw, cues, rest) && PassesAll(raw, rest)
    ensures first == if c.from.Some? && c.to.Some? && c.to.value > c.from.value && Trim(c.content) != ""
                     then [Cue(c.from.value, c.to.value, Trim(c.content))] else []
    ensures Passes([c] + raw, first + cues, at) && PassesAll([c] + raw, at)
  {
    PassesSkip(c, raw, cues, rest);
    if c.from.Some? && c.to.Some? && c.to.value > c.from.value && Trim(c.content) != "" {
      var cue := Cue(c.from.value, c.to.value, Trim(c.content));
      PassesFirst([c] + raw, cue, cues, Shifted(rest));
      PassesAllCons(c, raw, rest, [0]);
      first, at := [cue], [0] + Shifted(rest);
    } else {
      assert StandsForNone(c);
      PassesAllCons(c, raw, rest, []);
      assert [] + Shifted(rest) == Shifted(rest) && [] + cues == cues;
      first, at := [], Shifted(rest);
    }
  }

  /** Exactly the raw cues that stand for one are passed, each once and in order. */
  lemma {:induction false} ValidCuesIff(raw: seq<Raw>) returns (at: seq<nat>)
    ensures Passes(raw, ValidCues(raw), at) && PassesAll(raw, at)
  {
    if raw == [] {
      at := [];
    } else {
      var rest := ValidCuesIff(raw[1..]);
      var first;
      first, at := OneMoreRaw(raw[0], raw[1..], ValidCues(raw[1..]), rest);
      assert raw == [raw[0]] + raw[1..];
    }
  }

  // ----- Cleaning -----

  predicate StartsArrow(s: string) {
    |s| >= 3 && s[0] == '-' && s[1] == '-' && s[2] == '>'
  }

  predicate HasArrow(s: string) {
    s != "" && (StartsArrow(s) || HasArrow(s[1..]))
  }

  function WithoutReturns(s: string): string {
    if s == "" then "" else if s[0] == '\r' then WithoutReturns(s[1..]) else [s[0]] + WithoutReturns(s[1..])
  }

  function ReplaceArrows(s: string): string {
    if s == "" then "" else if StartsArrow(s) then [ARROW] + ReplaceArrows(s[3..]) else [s[0]] + ReplaceArrows(s[1..])
  }

  function Clean(content: string): string {
    Trim(ReplaceArrows(WithoutReturns(content)))
  }

  lemma {:induction false} ArrowsReplaced(s: string)
    ensures !HasArrow(ReplaceArrows(s))
    ensures ReplaceArrows(s) != "" && ReplaceArrows(s)[0] != ARROW ==> s != "" && s[0] == ReplaceArrows(s)[0] && ReplaceArrows(s)[1..] == ReplaceArrows(s[1..])
  {
    if s != "" {
      var rest := if StartsArrow(s) then s[3..] else s[1..];
      ArrowsReplaced(rest);
      var r := ReplaceArrows(s);
      assert r[1..] == ReplaceArrows(rest);
      if !StartsArrow(s) && rest != "" {
        ArrowsReplaced(rest[1..]);
      }
    }
  }

  lemma {:induction false} PrefixHasNoArrow(p: string, s: string)
    requires p <= s && !HasArrow(s)
    ensures !HasArrow(p)
  {
    if p != "" {
      PrefixHasNoArrow(p[1..], s[1..]);
    }
  }

  lemma {:induction false} TrimLeftHasNoArrow(s: string)
    requires !HasArrow(s)
    ensures !HasArrow(TrimLeft(s))
  {
    if s != "" && IsSpace(s[0]) {
      TrimLeftHasNoArrow(s[1..]);
    }
  }

  /** What reaches the file is trimmed and holds no arrow, which would start a new cue. */
  lemma CleanIsSafe(content: string)
    ensures Trimmed(Clean(content)) && !HasArrow(Clean(content))
  {
    var replaced := ReplaceArrows(WithoutReturns(content));
    ArrowsReplaced(WithoutReturns(content));
    TrimTrims(replaced);
    TrimLeftHasNoArrow(replaced);
    TrimRightEnds(TrimLeft(replaced));
    PrefixHasNoArrow(Trim(replaced), TrimLeft(replaced));
  }

  lemma {:induction false} StepsShorten(s: string)
    ensures |WithoutReturns(s)| <= |s| && |ReplaceArrows(s)| <= |s|
    ensures |WithoutReturns(s)| == |s| <==> forall i | 0 <= i < |s| :: s[i] != '\r'
    ensures |WithoutReturns(s)| == |s| ==> WithoutReturns(s) == s
    ensures |ReplaceArrows(s)| == |s| <==> !HasArrow(s)
    ensures |ReplaceArrows(s)| == |s| ==> ReplaceArrows(s) == s
  {
    if s != "" {
      StepsShorten(s[1..]);
      if StartsArrow(s) {
        StepsShorten(s[3..]);
      }
      assert s == [s[0]] + s[1..];
    }
  }

  /** Cleaning leaves exactly those contents as they are that are trimmed, have no carriage return
      and no arrow. */
  lemma CleanFixedIff(content: string)
    ensures Clean(content) == content <==>
              && Trimmed(content) && !HasArrow(content)
              && forall i | 0 <= i < |content| :: content[i] != '\r'
  {
    var text := WithoutReturns(content);
    StepsShorten(content);
    StepsShorten(text);
    TrimShorter(ReplaceArrows(text));
    TrimmedIff(content);
  }

  /** The text with every replaced arrow written out again. */
  function Expanded(s: string): string {
    if s == "" then "" else (if s[0] == ARROW then "-->" else [s[0]]) + Expanded(s[1..])
  }

  lemma {:induction false} ExpandedConcat(a: string, b: string)
    ensures Expanded(a + b) == Expanded(a) + Expanded(b)
  {
    if a == "" {
      assert a + b == b;
    } else {
      assert (a + b)[1..] == a[1..] + b;
      ExpandedConcat(a[1..], b);
    }
  }

  lemma {:induction false} ReplacedExpands(s: string)
    ensures Expanded(ReplaceArrows(s)) == Expanded(s)
  {
    if s != "" {
      var head, rest := if StartsArrow(s) then s[..3] else s[..1], if StartsArrow(s) then s[3..] else s[1..];
      ReplacedExpands(rest);
      ExpandedConcat(head, rest);
      assert s == head + rest;
      if StartsArrow(s) {
        assert s[..3] == "-->";
        assert "-->"[1..] == "->" && "->"[1..] == ">" && ">"[1..] == "";
        assert Expanded("-->") == "-->";
        assert ([ARROW] + ReplaceArrows(rest))[1..] == ReplaceArrows(rest);
      } else {
        assert ([s[0]] + ReplaceArrows(rest))[1..] == ReplaceArrows(rest);
        assert [s[0]][1..] == "";
      }
    }
  }

  lemma ExpandedEnds(s: string)
    requires s != ""
    ensures var e := Expanded(s); e != "" && IsSpace(e[0]) == IsSpace(s[0]) && IsSpace(e[|e| - 1]) == IsSpace(s[|s| - 1])
    ensures IsSpace(s[0]) ==> Expanded(s)[1..] == Expanded(s[1..])
    ensures IsSpace(s[|s| - 1]) ==> Expanded(s)[..|Expanded(s)| - 1] == Expanded(s[..|s| - 1])
  {
    var before, last := s[..|s| - 1], [s[|s| - 1]];
    assert s == before + last && last[1..] == "";
    ExpandedConcat(before, last);
    assert Expanded(last) == if last[0] == ARROW then "-->" else last;
  }

  lemma {:induction false} TrimLeftExpands(s: string)
    ensures Expanded(TrimLeft(s)) == TrimLeft(Expanded(s))
  {
    if s != "" {
      ExpandedEnds(s);
      if IsSpace(s[0]) {
        TrimLeftExpands(s[1..]);
      }
    }
  }

  lemma {:induction false} TrimRightExpands(s: string)
    ensures Expanded(TrimRight(s)) == TrimRight(Expanded(s))
  {
    if s != "" {
      ExpandedEnds(s);
      if IsSpace(s[|s| - 1]) {
        TrimRightExpands(s[..|s| - 1]);
      }
    }
  }

  /** Nothing is lost but white space at the ends and carriage returns: with the arrows written
      out again, the cleaned content is the content without returns, trimmed. */
  lemma CleanKeepsText(content: string)
    ensures Expanded(Clean(content)) == Trim(Expanded(WithoutReturns(content)))
    ensures multiset(WithoutReturns(content)) == multiset(content)['\r' := 0]
  {
    var text := WithoutReturns(content);
    ReplacedExpands(text);
    TrimLeftExpands(ReplaceArrows(text));
    TrimRightExpands(TrimLeft(ReplaceArrows(text)));
    ReturnsGone(content);
  }

  lemma {:induction false} ReturnsGone(s: string)
    ensures multiset(WithoutReturns(s)) == multiset(s)['\r' := 0]
  {
    if s != "" {
      ReturnsGone(s[1..]);
      assert s == [s[0]] + s[1..];
      assert multiset(s) == multiset{s[0]} + multiset(s[1..]);
    }
  }

  predicate HasInk(s: string) {
    s != "" && (!IsSpace(s[0]) || HasInk(s[1..]))
  }

  lemma {:induction false} CleaningKeepsInk(s: string)
    requires HasInk(s)
    ensures HasInk(WithoutReturns(s)) && HasInk(ReplaceArrows(s)) && HasInk(TrimLeft(s))
  {
    if s[0] != '\r' && !IsSpace(s[0]) {
      assert !IsSpace(ReplaceArrows(s)[0]) && !IsSpace(WithoutReturns(s)[0]);
    } else {
      CleaningKeepsInk(s[1..]);
      assert ([s[0]] + ReplaceArrows(s[1..]))[1..] == ReplaceArrows(s[1..]);
      assert ([s[0]] + WithoutReturns(s[1..]))[1..] == WithoutReturns(s[1..]);
    }
  }

  lemma {:induction false} InkWithoutLast(s: string)
    requires HasInk(s) && IsSpace(s[|s| - 1])
    ensures HasInk(s[..|s| - 1])
  {
    if IsSpace(s[0]) {
      InkWithoutLast(s[1..]);
      assert s[..|s| - 1][1..] == s[1..][..|s| - 2];
    }
  }

  lemma {:induction false} TrimRightKeepsInk(s: string)
    requires HasInk(s)
    ensures TrimRight(s) != ""
  {
    if IsSpace(s[|s| - 1]) {
      InkWithoutLast(s);
      TrimRightKeepsInk(s[..|s| - 1]);
    }
  }

  /** Cleaning a valid cue's content never empties it. */
  lemma CleanIsNotEmpty(content: string)
    requires content != "" && Trim(content) == content
    ensures Clean(content) != ""
  {
    TrimTrims(content);
    CleaningKeepsInk(content);
    CleaningKeepsInk(WithoutReturns(content));
    CleaningKeepsInk(ReplaceArrows(WithoutReturns(content)));
    TrimRightKeepsInk(TrimLeft(ReplaceArrows(WithoutReturns(content))));
  }

  // ----- Printing -----

  function TimingLine(from: nat, to: nat): string {
    TimeText(from) + " --> " + TimeText(to)
  }

  function Block(index: nat, cue: Cue): string {
    Digits(index) + "\n" + TimingLine(Milliseconds(cue.from), Milliseconds(cue.to)) + "\n" + Clean(cue.content)
  }

  /** The blocks of the cues, the first numbered `index`, a blank line between two. */
  function Body(index: nat, cues: seq<Cue>): string
    decreases |cues|
  {
    if cues == [] then ""
    else if |cues| == 1 then Block(index, cues[0])
    else Block(index, cues[0]) + "\n\n" + Body(index + 1, cues[1..])
  }

  function ToWebVtt(cues: seq<Cue>): string {
    HEADER + "\n\n" + Body(1, cues) + "\n"
  }

  // ----- Reading -----

  function SplitLines(s: string): (lines: seq<string>)
    ensures |lines| >= 1
  {
    if s == "" then [""]
    else
      var rest := SplitLines(s[1..]);
      if s[0] == '\n' then [""] + rest else [[s[0]] + rest[0]] + rest[1..]
  }

  function JoinLines(lines: seq<string>): string {
    if lines == [] then "" else if |lines| == 1 then lines[0] else lines[0] + "\n" + JoinLines(lines[1..])
  }

  function LeadingLines(lines: seq<string>): (n: nat)
    ensures n <= |lines| && (forall i | 0 <= i < n :: lines[i] != "") && (n < |lines| ==> lines[n] == "")
  {
    if lines == [] || lines[0] == "" then 0 else 1 + LeadingLines(lines[1..])
  }

  /** The runs of lines between blank lines. */
  function Blocks(lines: seq<string>): seq<seq<string>> {
    if lines == [] then []
    else if lines[0] == "" then Blocks(lines[1..])
    else
      var n := LeadingLines(lines);
      [lines[..n]] + Blocks(lines[n..])
  }

  function FirstSpace(s: string): (n: nat)
    ensures n <= |s|
  {
    if s == "" || s[0] == ' ' then 0 else 1 + FirstSpace(s[1..])
  }

  datatype Timing = Timing(from: nat, to: nat)

  function ReadTiming(s: string): Option<Timing> {
    var n := FirstSpace(s);
    if |s| < n + 5 || s[n..n + 5] != " --> " then None
    else
      var from, to := ReadTime(s[..n]), ReadTime(s[n + 5..]);
      if from.None? || to.None? then None else Some(Timing(from.value, to.value))
  }

  /** A cue block: identifier, timings, text. A line with an arrow among the text would be the
      timings of another cue. */
  function ReadBlock(lines: seq<string>): Option<Shown> {
    if |lines| < 2 || ReadTiming(lines[1]).None? || exists i | 2 <= i < |lines| :: HasArrow(lines[i]) then None
    else Some(Shown(lines[0], ReadTiming(lines[1]).value.from, ReadTiming(lines[1]).value.to, JoinLines(lines[2..])))
  }

  /** Blocks that are no cue are passed over. */
  function ReadBlocks(blocks: seq<seq<string>>): seq<Shown> {
    if blocks == [] then []
    else
      var cue := ReadBlock(blocks[0]);
      (if cue.Some? then [cue.value] else []) + ReadBlocks(blocks[1..])
  }

  function ReadWebVtt(text: string): Option<seq<Shown>> {
    var lines := SplitLines(text);
    if lines[0] != HEADER then None else Some(ReadBlocks(Blocks(lines[1..])))
  }

  // ----- Lines -----

  lemma {:induction false} SplitTwo(a: string, b: string)
    ensures SplitLines(a + "\n" + b) == SplitLines(a) + SplitLines(b)
  {
    var s := a + "\n" + b;
    if a == "" {
      assert s[1..] == b;
    } else {
      assert s[0] == a[0] && s[1..] == a[1..] + "\n" + b;
      SplitTwo(a[1..], b);
    }
  }

  predicate OneLine(s: string) {
    forall i | 0 <= i < |s| :: s[i] != '\n'
  }

  lemma {:induction false} SplitOne(s: string)
    requires OneLine(s)
    ensures SplitLines(s) == [s]
  {
    if s != "" {
      SplitOne(s[1..]);
      assert [s[0]] + s[1..] == s;
    }
  }

  lemma {:induction false} SplitLaw(s: string)
    ensures JoinLines(SplitLines(s)) == s
    ensures SplitLines(s)[0] <= s
    ensures !HasArrow(s) ==> forall i | 0 <= i < |SplitLines(s)| :: !HasArrow(SplitLines(s)[i])
  {
    if s != "" {
      var lines, rest := SplitLines(s), SplitLines(s[1..]);
      SplitLaw(s[1..]);
      if s[0] == '\n' {
        assert lines[1..] == rest;
        assert !HasArrow("");
      } else {
        assert lines[1..] == rest[1..];
        if !HasArrow(s) {
          PrefixHasNoArrow(lines[0], s);
        }
      }
    }
  }

  predicate NoBlank(lines: seq<string>) {
    forall i | 0 <= i < |lines| :: lines[i] != ""
  }

  lemma {:induction false} LeadingAll(lines: seq<string>, rest: seq<string>)
    requires NoBlank(lines)
    ensures LeadingLines(lines + [""] + rest) == |lines|
  {
    var all := lines + [""] + rest;
    if lines == [] {
      assert all[0] == "";
    } else {
      assert all[0] == lines[0] && all[1..] == lines[1..] + [""] + rest;
      LeadingAll(lines[1..], rest);
    }
  }

  lemma BlockFirst(lines: seq<string>, rest: seq<string>)
    requires NoBlank(lines) && lines != []
    ensures Blocks(lines + [""] + rest) == [lines] + Blocks(rest)
  {
    var all := lines + [""] + rest;
    LeadingAll(lines, rest);
    assert all[..|lines|] == lines && all[|lines|..] == [""] + rest;
    assert ([""] + rest)[1..] == rest;
    assert all[0] == lines[0];
  }

  /** Two line breaks in a row leave one blank line. */
  lemma SplitBlank(a: string, b: string)
    ensures SplitLines(a + "\n\n" + b) == SplitLines(a) + [""] + SplitLines(b)
  {
    assert a + "\n\n" + b == (a + "\n" + "") + "\n" + b;
    SplitTwo(a + "\n" + "", b);
    SplitTwo(a, "");
  }

  lemma SplitLast(a: string)
    ensures SplitLines(a + "\n") == SplitLines(a) + [""]
  {
    assert a + "\n" == a + "\n" + "";
    SplitTwo(a, "");
  }

  lemma ThreeLines(id: string, timing: string, text: string)
    requires OneLine(id) && OneLine(timing)
    ensures SplitLines(id + "\n" + timing + "\n" + text) == [id, timing] + SplitLines(text)
  {
    SplitTwo(id + "\n" + timing, text);
    SplitTwo(id, timing);
    SplitOne(id);
    SplitOne(timing);
  }

  // ----- Print and read back -----

  function Lines(index: nat, cue: Cue): seq<string> {
    [Digits(index), TimingLine(Milliseconds(cue.from), Milliseconds(cue.to))] + SplitLines(Clean(cue.content))
  }

  function ShownCue(index: nat, cue: Cue): Shown {
    Shown(Digits(index), Milliseconds(cue.from), Milliseconds(cue.to), Clean(cue.content))
  }

  function ShownCues(index: nat, cues: seq<Cue>): (r: seq<Shown>)
    ensures |r| == |cues|
    ensures forall i | 0 <= i < |r| ::
              && r[i].id == Digits(index + i) && r[i].text == Clean(cues[i].content)
              && r[i].from == Milliseconds(cues[i].from) && r[i].to == Milliseconds(cues[i].to)
    decreases |cues|
  {
    if cues == [] then [] else [ShownCue(index, cues[0])] + ShownCues(index + 1, cues[1..])
  }

  lemma {:induction false} SpaceAfter(a: string, s: string)
    requires a <= s && |a| < |s| && s[|a|] == ' '
    requires forall i | 0 <= i < |a| :: a[i] != ' '
    ensures FirstSpace(s) == |a|
  {
    if a != "" {
      assert s[0] == a[0];
      SpaceAfter(a[1..], s[1..]);
    }
  }

  lemma ArrowBetween(a: string, b: string)
    requires TimeChars(a) && TimeChars(b)
    ensures var s := a + " --> " + b;
            OneLine(s) && FirstSpace(s) == |a| && |s| == |a| + 5 + |b|
            && s[..|a|] == a && s[|a|..|a| + 5] == " --> " && s[|a| + 5..] == b
  {
    var s := a + " --> " + b;
    assert s[|a|] == ' ';
    SpaceAfter(a, s);
  }

  lemma TimingRoundTrip(from: nat, to: nat)
    ensures OneLine(TimingLine(from, to)) && ReadTiming(TimingLine(from, to)) == Some(Timing(from, to))
  {
    TimeRoundTrip(from);
    TimeRoundTrip(to);
    ArrowBetween(TimeText(from), TimeText(to));
  }

  /** Section 4.1 wants the end after the start. The printed timings say so exactly when the two
      differ once rounded, as they do for times of at least zero a millisecond apart. */
  lemma EndsAfterStartIff(cue: Cue)
    ensures var timing := ReadTiming(TimingLine(Milliseconds(cue.from), Milliseconds(cue.to)));
            timing.Some? && (timing.value.from < timing.value.to <==> Milliseconds(cue.from) < Milliseconds(cue.to))
    ensures cue.from >= 0.0 && cue.to - cue.from >= 0.001 ==> Milliseconds(cue.from) < Milliseconds(cue.to)
  {
    TimingRoundTrip(Milliseconds(cue.from), Milliseconds(cue.to));
    if cue.from >= 0.0 && cue.to - cue.from >= 0.001 {
      assert cue.to * 1000.0 >= cue.from * 1000.0 + 1.0;
    }
  }

  /** Two valid cues printed with their end at their start: one too short, one before zero. */
  lemma EndCanMeetStart()
    ensures Milliseconds(0.0) == Milliseconds(0.0004) && Milliseconds(-2.0) == Milliseconds(-1.0)
    ensures ValidCues([Raw(Some(0.0), Some(0.0004), "a")]) == [Cue(0.0, 0.0004, "a")]
    ensures ValidCues([Raw(Some(-2.0), Some(-1.0), "a")]) == [Cue(-2.0, -1.0, "a")]
  {
    TrimmedIff("a");
    assert ValidCues([]) == [];
    var short, early := Raw(Some(0.0), Some(0.0004), "a"), Raw(Some(-2.0), Some(-1.0), "a");
    assert [short][1..] == [] && [early][1..] == [];
  }

  lemma BlockLines(index: nat, cue: Cue)
    ensures SplitLines(Block(index, cue)) == Lines(index, cue)
  {
    DigitsValue(index);
    TimingRoundTrip(Milliseconds(cue.from), Milliseconds(cue.to));
    assert OneLine(Digits(index));
    ThreeLines(Digits(index), TimingLine(Milliseconds(cue.from), Milliseconds(cue.to)), Clean(cue.content));
  }

  lemma ReadThree(id: string, timing: string, text: string)
    requires ReadTiming(timing).Some? && !HasArrow(text)
    ensures ReadBlock([id, timing] + SplitLines(text))
              == Some(Shown(id, ReadTiming(timing).value.from, ReadTiming(timing).value.to, text))
  {
    var lines := [id, timing] + SplitLines(text);
    SplitLaw(text);
    assert lines[2..] == SplitLines(text);
    forall i | 2 <= i < |lines| ensures !HasArrow(lines[i]) {
      assert lines[i] == SplitLines(text)[i - 2];
    }
  }

  lemma {:induction false} BlockReadBack(index: nat, cue: Cue)
    ensures ReadBlock(Lines(index, cue)) == Some(ShownCue(index, cue))
  {
    TimingRoundTrip(Milliseconds(cue.from), Milliseconds(cue.to));
    CleanIsSafe(cue.content);
    ReadThree(Digits(index), TimingLine(Milliseconds(cue.from), Milliseconds(cue.to)), Clean(cue.content));
  }

  /** The cleaned content has no blank line. */
  predicate Blankless(cue: Cue) {
    NoBlank(SplitLines(Clean(cue.content)))
  }

  lemma LinesNoBlank(index: nat, cue: Cue)
    requires Blankless(cue)
    ensures NoBlank(Lines(index, cue))
  {
    DigitsValue(index);
    var id, timing := Digits(index), TimingLine(Milliseconds(cue.from), Milliseconds(cue.to));
    assert id != "" && timing != "";
    NoBlankJoin(id, timing, SplitLines(Clean(cue.content)));
  }

  lemma NoBlankJoin(id: string, timing: string, rest: seq<string>)
    requires id != "" && timing != "" && NoBlank(rest)
    ensures NoBlank([id, timing] + rest)
  {
  }

  lemma BlockThenRest(block: string, lines: seq<string>, rest: string)
    requires SplitLines(block) == lines && NoBlank(lines)
    ensures Blocks(SplitLines(block + "\n\n" + rest) + [""]) == [lines] + Blocks(SplitLines(rest) + [""])
  {
    SplitBlank(block, rest);
    assert lines + [""] + SplitLines(rest) + [""] == lines + [""] + (SplitLines(rest) + [""]);
    BlockFirst(lines, SplitLines(rest) + [""]);
  }

  lemma LastBlock(lines: seq<string>)
    requires NoBlank(lines) && lines != []
    ensures Blocks(lines + [""]) == [lines]
  {
    BlockFirst(lines, []);
    assert lines + [""] + [] == lines + [""];
  }

  lemma {:induction false} BodyReadBack(index: nat, cues: seq<Cue>)
    requires forall i | 0 <= i < |cues| :: Blankless(cues[i])
    ensures ReadBlocks(Blocks(SplitLines(Body(index, cues)) + [""])) == ShownCues(index, cues)
    decreases |cues|
  {
    if cues == [] {
      assert Blocks(["", ""][1..]) == [];
      assert [""] + [""] == ["", ""];
    } else {
      var lines := Lines(index, cues[0]);
      BlockLines(index, cues[0]);
      BlockReadBack(index, cues[0]);
      LinesNoBlank(index, cues[0]);
      var rest := Body(index + 1, cues[1..]);
      BodyReadBack(index + 1, cues[1..]);
      if |cues| == 1 {
        LastBlock(lines);
        FirstBlockRead(lines, []);
      } else {
        BlockThenRest(Block(index, cues[0]), lines, rest);
        FirstBlockRead(lines, Blocks(SplitLines(rest) + [""]));
      }
    }
  }

  lemma FirstBlockRead(lines: seq<string>, blocks: seq<seq<string>>)
    requires ReadBlock(lines).Some?
    ensures ReadBlocks([lines] + blocks) == [ReadBlock(lines).value] + ReadBlocks(blocks)
  {
    assert ([lines] + blocks)[1..] == blocks;
  }

  lemma HeaderLines(body: string)
    ensures var lines := SplitLines(HEADER + "\n\n" + body + "\n");
            lines[0] == HEADER && lines[1..] == [""] + (SplitLines(body) + [""])
  {
    SplitOne(HEADER);
    FirstLine(HEADER, body);
  }

  lemma FirstLine(header: string, body: string)
    requires SplitLines(header) == [header]
    ensures var lines := SplitLines(header + "\n\n" + body + "\n");
            lines[0] == header && lines[1..] == [""] + (SplitLines(body) + [""])
  {
    assert header + "\n\n" + body + "\n" == header + "\n\n" + (body + "\n");
    SplitBlank(header, body + "\n");
    SplitLast(body);
  }

  lemma ReadPrinted(cues: seq<Cue>)
    ensures ReadWebVtt(ToWebVtt(cues)) == Some(ReadBlocks(Blocks(SplitLines(Body(1, cues)) + [""])))
  {
    HeaderLines(Body(1, cues));
    var rest := SplitLines(Body(1, cues)) + [""];
    assert ([""] + rest)[1..] == rest;
  }

  // ----- What a reader can read -----

  predicate AllOneLine(lines: seq<string>) {
    forall i | 0 <= i < |lines| :: OneLine(lines[i])
  }

  lemma {:induction false} SplitOneLines(s: string)
    ensures AllOneLine(SplitLines(s))
  {
    if s != "" {
      SplitOneLines(s[1..]);
    }
  }

  lemma {:induction false} JoinedSplits(lines: seq<string>)
    requires lines != [] && AllOneLine(lines)
    ensures SplitLines(JoinLines(lines)) == lines
  {
    SplitOne(lines[0]);
    if |lines| > 1 {
      SplitTwo(lines[0], JoinLines(lines[1..]));
      JoinedSplits(lines[1..]);
      assert [lines[0]] + lines[1..] == lines;
    }
  }

  predicate Readable(text: string) {
    text == "" || NoBlank(SplitLines(text))
  }

  lemma BlockReadable(lines: seq<string>)
    requires NoBlank(lines) && AllOneLine(lines) && ReadBlock(lines).Some?
    ensures Readable(ReadBlock(lines).value.text)
  {
    if |lines| > 2 {
      JoinedSplits(lines[2..]);
    }
  }

  /** No cue is read with a blank line in its text. */
  lemma {:induction false} ReadIsReadable(lines: seq<string>)
    requires AllOneLine(lines)
    ensures forall i | 0 <= i < |ReadBlocks(Blocks(lines))| :: Readable(ReadBlocks(Blocks(lines))[i].text)
    decreases |lines|
  {
    if lines != [] {
      if lines[0] == "" {
        ReadIsReadable(lines[1..]);
      } else {
        var n := LeadingLines(lines);
        ReadIsReadable(lines[n..]);
        if ReadBlock(lines[..n]).Some? {
          BlockReadable(lines[..n]);
        }
        assert ([lines[..n]] + Blocks(lines[n..]))[1..] == Blocks(lines[n..]);
      }
    }
  }

  lemma {:induction false} ReadBackIsBlankless(cues: seq<Cue>)
    requires forall i | 0 <= i < |cues| :: cues[i].content != "" && Trim(cues[i].content) == cues[i].content
    requires ReadWebVtt(ToWebVtt(cues)) == Some(ShownCues(1, cues))
    ensures forall i | 0 <= i < |cues| :: Blankless(cues[i])
  {
    var lines := SplitLines(Body(1, cues)) + [""];
    ReadPrinted(cues);
    SplitOneLines(Body(1, cues));
    ReadIsReadable(lines);
    forall i | 0 <= i < |cues| ensures Blankless(cues[i]) {
      CleanIsNotEmpty(cues[i].content);
      assert Readable(ShownCues(1, cues)[i].text);
    }
  }

  /** Reading the printed text gives the same cues in order, with their times rounded and
      their content cleaned, exactly when no cleaned content has a blank line. */
  lemma {:induction false} RoundTripIff(cues: seq<Cue>)
    requires forall i | 0 <= i < |cues| :: cues[i].content != "" && Trim(cues[i].content) == cues[i].content
    ensures ReadWebVtt(ToWebVtt(cues)) == Some(ShownCues(1, cues)) <==> forall i | 0 <= i < |cues| :: Blankless(cues[i])
  {
    ReadPrinted(cues);
    if forall i | 0 <= i < |cues| :: Blankless(cues[i]) {
      BodyReadBack(1, cues);
    }
    if ReadWebVtt(ToWebVtt(cues)) == Some(ShownCues(1, cues)) {
      ReadBackIsBlankless(cues);
    }
  }

  /** The cues that `validCues` lets through satisfy what the round trip asks of a cue. */
  lemma {:induction false} ServiceRoundTripIff(raw: seq<Raw>)
    ensures var cues := ValidCues(raw);
            ReadWebVtt(ToWebVtt(cues)) == Some(ShownCues(1, cues)) <==> forall i | 0 <= i < |cues| :: Blankless(cues[i])
  {
    RoundTripIff(ValidCues(raw));
  }

  const BLANK := "a\n\nb"

  lemma BlankIsClean()
    ensures Trim(BLANK) == BLANK && Clean(BLANK) == BLANK
  {
    TrimmedIff(BLANK);
    assert WithoutReturns(BLANK) == BLANK;
    assert ReplaceArrows(BLANK) == BLANK;
  }

  lemma BlankHasBlank()
    ensures !NoBlank(SplitLines(BLANK))
  {
    assert BLANK == "a" + "\n\n" + "b";
    SplitBlank("a", "b");
    SplitOne("a");
    assert SplitLines(BLANK)[1] == "";
  }

  /** A cue whose content has a blank line does not come back. */
  lemma {:induction false} BlankLineIsLost(cue: Cue)
    requires cue.content == BLANK
    ensures ReadWebVtt(ToWebVtt([cue])) != Some(ShownCues(1, [cue]))
  {
    BlankIsClean();
    BlankHasBlank();
    assert !Blankless(cue);
    OneLost([cue]);
  }

  lemma {:induction false} OneLost(cues: seq<Cue>)
    requires |cues| == 1 && !Blankless(cues[0]) && cues[0].content != "" && Trim(cues[0].content) == cues[0].content
    ensures ReadWebVtt(ToWebVtt(cues)) != Some(ShownCues(1, cues))
  {
    RoundTripIff(cues);
  }
}
