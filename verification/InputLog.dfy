/** Keyframe requests as entries of the input log: printed into the text of a comment, one line
    for each field, and parsed back, character by character. */
module InputLog {
  import opened Basics

  datatype Result<+T> = Ok(value: T) | Err(error: Error)

  datatype Error = BadNumber(token: string) | BadSize(key: string) | Incomplete

  /** Observations, as far as the log looks at them. `external`: a point cloud kept in a file. */
  datatype Obs =
    | Comment(sensor: string, stamp: int, text: string)
    | Cloud(id: nat, external: bool)
    | OtherObs(id: nat)

  /** A request and the bias estimate of that moment; `pose` lists the 3x4 matrix and `cov`
      the 6x6 one by rows. */
  datatype Recorded<N> = Recorded(
    stamp: int, frame: string, pose: seq<N>, cov: seq<N>, quality: N,
    bias: seq<N>, sigma: N, fromSource: bool,
    observations: seq<Obs>)

  predicate WellSized<N>(kf: Recorded<N>) {
    |kf.pose| == 12 && |kf.cov| == 36 && |kf.bias| == 3
  }

  const KEYFRAME_LABEL := "mapper_keyframe_request"

  // ----- Numbers -----

  datatype Numbers<!N(!new)> = Numbers(show: N -> string, parse: string -> Option<N>, zero: N, one: N)

  predicate IsSpace(c: char) {
    c == ' ' || '\t' <= c <= '\r'
  }

  ghost predicate IsToken(s: string) {
    s != "" && forall i :: 0 <= i < |s| ==> !IsSpace(s[i])
  }

  ghost predicate ReadsBack<N(!new)>(p: Numbers<N>, x: N) {
    IsToken(p.show(x)) && p.parse(p.show(x)) == Some(x)
  }

  /** The printer is exact. */
  ghost predicate IsExact<N(!new)>(p: Numbers<N>) {
    (forall x :: ReadsBack(p, x)) && p.zero != p.one
  }

  /** " a b c" */
  function Spaced<N(!new)>(p: Numbers<N>, v: seq<N>): string {
    if v == [] then "" else Spaced(p, v[..|v| - 1]) + " " + p.show(v[|v| - 1])
  }

  method WriteNumbers<N(!new)>(p: Numbers<N>, s: string, v: seq<N>) returns (out: string)
    ensures out == s + Spaced(p, v) + "\n"
  {
    out := s;
    for i := 0 to |v|
      invariant out == s + Spaced(p, v[..i])
    {
      assert v[..i + 1][..i] == v[..i];
      out := out + " ";
      out := out + p.show(v[i]);
    }
    assert v[..|v|] == v;
    out := out + "\n";
  }

  function SkipSpaces(s: string, i: nat): (j: nat)
    requires i <= |s|
    ensures i <= j <= |s| && (j < |s| ==> !IsSpace(s[j]))
    decreases |s| - i
  {
    if i < |s| && IsSpace(s[i]) then SkipSpaces(s, i + 1) else i
  }

  function TokenEnd(s: string, i: nat): (j: nat)
    requires i <= |s|
    ensures i <= j <= |s| && (i < |s| && !IsSpace(s[i]) ==> i < j)
    decreases |s| - i
  {
    if i < |s| && !IsSpace(s[i]) then TokenEnd(s, i + 1) else i
  }

  /** The numbers of `s` from position `i` on. */
  function NumbersFrom<N(!new)>(p: Numbers<N>, s: string, i: nat): Result<seq<N>>
    requires i <= |s|
    decreases |s| - i
  {
    var b := SkipSpaces(s, i);
    if b == |s| then Ok([])
    else
      var e := TokenEnd(s, b);
      match p.parse(s[b..e])
      case None => Err(BadNumber(s[b..e]))
      case Some(x) =>
        match NumbersFrom(p, s, e)
        case Err(error) => Err(error)
        case Ok(v) => Ok([x] + v)
  }

  method ReadNumbers<N(!new)>(p: Numbers<N>, s: string) returns (r: Result<seq<N>>)
    ensures r == NumbersFrom(p, s, 0)
  {
    var v: seq<N> := [];
    var i := SkipSpaces(s, 0);
    SkipTwice(p, s, 0);
    assert forall w :: v + w == w;
    while i < |s|
      invariant i <= |s| && (i < |s| ==> !IsSpace(s[i]))
      invariant NumbersFrom(p, s, 0) == match NumbersFrom(p, s, i) case Err(error) => Err(error) case Ok(w) => Ok(v + w)
      decreases |s| - i
    {
      var e := TokenEnd(s, i);
      assert SkipSpaces(s, i) == i;
      match p.parse(s[i..e])
      case None => return Err(BadNumber(s[i..e]));
      case Some(x) =>
        assert forall w :: (v + [x]) + w == v + ([x] + w);
        v := v + [x];
        SkipTwice(p, s, e);
        i := SkipSpaces(s, e);
    }
    assert v + [] == v;
    r := Ok(v);
  }

  lemma SkipTwice<N(!new)>(p: Numbers<N>, s: string, i: nat)
    requires i <= |s|
    ensures NumbersFrom(p, s, SkipSpaces(s, i)) == NumbersFrom(p, s, i)
  {
  }

  // ----- Lines -----

  function Find(s: string, c: char, i: nat): (j: nat)
    requires i <= |s|
    ensures i <= j <= |s| && (j < |s| ==> s[j] == c) && forall k :: i <= k < j ==> s[k] != c
    decreases |s| - i
  {
    if i < |s| && s[i] != c then Find(s, c, i + 1) else i
  }

  /** The lines of `s` from position `i` on; what follows the last line break is one, if not empty. */
  function LinesFrom(s: string, i: nat): seq<string>
    requires i <= |s|
    decreases |s| - i
  {
    if i == |s| then []
    else
      var j := Find(s, '\n', i);
      [s[i..j]] + if j == |s| then [] else LinesFrom(s, j + 1)
  }

  function KeyOf(line: string): string {
    line[..Find(line, ' ', 0)]
  }

  function RestOf(line: string): string {
    var sp := Find(line, ' ', 0);
    if sp == |line| then "" else line[sp + 1..]
  }

  // ----- Decoding -----

  /** One line of the comment. Unknown keys are only parsed. */
  function DecodeLine<N(!new,==)>(p: Numbers<N>, key: string, rest: string, kf: Recorded<N>): Result<Recorded<N>> {
    if key == "source_frame_id" then Ok(kf.(frame := rest))
    else
      match NumbersFrom(p, rest, 0)
      case Err(error) => Err(error)
      case Ok(v) =>
        if key == "quality" then
          if |v| != 1 then Err(BadSize(key)) else Ok(kf.(quality := v[0]))
        else if key == "pose" then
          if |v| != 12 then Err(BadSize(key)) else Ok(kf.(pose := v))
        else if key == "cov" then
          if |v| != 36 then Err(BadSize(key)) else Ok(kf.(cov := v))
        else if key == "gyro_bias" then
          if |v| != 5 then Err(BadSize(key)) else Ok(kf.(bias := v[..3], sigma := v[3], fromSource := v[4] != p.zero))
        else Ok(kf)
  }

  /** The request read so far, and the keys seen. */
  datatype Parsed<N> = Parsed(kf: Recorded<N>, keys: set<string>)

  function DecodeLines<N(!new,==)>(p: Numbers<N>, lines: seq<string>, x: Parsed<N>): Result<Parsed<N>>
    decreases |lines|
  {
    if lines == [] then Ok(x)
    else
      match DecodeLine(p, KeyOf(lines[0]), RestOf(lines[0]), x.kf)
      case Err(error) => Err(error)
      case Ok(kf) => DecodeLines(p, lines[1..], Parsed(kf, x.keys + {KeyOf(lines[0])}))
  }

  predicate IsRequest(o: Obs) {
    o.Comment? && o.sensor == KEYFRAME_LABEL
  }

  function DecodeObs<N(!new,==)>(p: Numbers<N>, o: Obs, x: Parsed<N>): Result<Parsed<N>> {
    if !IsRequest(o) then Ok(x.(kf := x.kf.(observations := x.kf.observations + [o])))
    else DecodeLines(p, LinesFrom(o.text, 0), x.(kf := x.kf.(stamp := o.stamp)))
  }

  function DecodeAll<N(!new,==)>(p: Numbers<N>, sf: seq<Obs>, x: Parsed<N>): Result<Parsed<N>>
    decreases |sf|
  {
    if sf == [] then Ok(x)
    else
      match DecodeObs(p, sf[0], x)
      case Err(error) => Err(error)
      case Ok(y) => DecodeAll(p, sf[1..], y)
  }

  const KEYS := {"source_frame_id", "quality", "pose", "cov", "gyro_bias"}

  /** `blank` is the request that decoding starts from. */
  function Decode<N(!new,==)>(p: Numbers<N>, sf: seq<Obs>, blank: Recorded<N>): Result<Recorded<N>> {
    match DecodeAll(p, sf, Parsed(blank.(observations := []), {}))
    case Err(error) => Err(error)
    case Ok(x) => if x.keys == KEYS then Ok(x.kf) else Err(Incomplete)
  }

  /** The lines from `i` on are the one up to `j`, and those after it. */
  lemma NextLine<N(!new)>(p: Numbers<N>, text: string, i: nat, j: nat, x: Parsed<N>)
    requires i < |text| && j == Find(text, '\n', i)
    ensures DecodeLines(p, LinesFrom(text, i), x) ==
      match DecodeLine(p, KeyOf(text[i..j]), RestOf(text[i..j]), x.kf)
      case Err(error) => Err(error)
      case Ok(kf) =>
        DecodeLines(p, LinesFrom(text, if j == |text| then j else j + 1), Parsed(kf, x.keys + {KeyOf(text[i..j])}))
  {
    hide DecodeLine, KeyOf, RestOf;
    var more := LinesFrom(text, if j == |text| then j else j + 1);
    assert LinesFrom(text, i) == [text[i..j]] + more;
    assert ([text[i..j]] + more)[1..] == more;
  }

  method DecodeText<N(!new,==)>(p: Numbers<N>, text: string, x: Parsed<N>) returns (r: Result<Parsed<N>>)
    ensures r == DecodeLines(p, LinesFrom(text, 0), x)
  {
    hide DecodeLine, DecodeLines, LinesFrom;
    var i, y := 0, x;
    while i < |text|
      invariant i <= |text|
      invariant DecodeLines(p, LinesFrom(text, 0), x) == DecodeLines(p, LinesFrom(text, i), y)
      decreases |text| - i
    {
      var j := Find(text, '\n', i);
      NextLine(p, text, i, j, y);
      var line := text[i..j];
      var sp := Find(line, ' ', 0);
      var key := line[..sp];
      match DecodeLine(p, key, if sp == |line| then "" else line[sp + 1..], y.kf)
      case Err(error) => return Err(error);
      case Ok(kf) =>
        y := Parsed(kf, y.keys + {key});
        i := if j == |text| then j else j + 1;
    }
    NoMoreLines(p, text, y);
    r := Ok(y);
  }

  lemma NoMoreLines<N(!new)>(p: Numbers<N>, text: string, x: Parsed<N>)
    ensures DecodeLines(p, LinesFrom(text, |text|), x) == Ok(x)
  {
  }

  method DecodeFrame<N(!new,==)>(p: Numbers<N>, sf: seq<Obs>, blank: Recorded<N>) returns (r: Result<Recorded<N>>)
    ensures r == Decode(p, sf, blank)
  {
    var x := Parsed(blank.(observations := []), {});
    assert sf[0..] == sf;
    for i := 0 to |sf|
      invariant DecodeAll(p, sf, Parsed(blank.(observations := []), {})) == DecodeAll(p, sf[i..], x)
    {
      var o := sf[i];
      assert sf[i..][1..] == sf[i + 1..];
      if !IsRequest(o) {
        x := x.(kf := x.kf.(observations := x.kf.observations + [o]));
      } else {
        var d := DecodeText(p, o.text, x.(kf := x.kf.(stamp := o.stamp)));
        match d
        case Err(error) => return Err(error);
        case Ok(y) => x := y;
      }
    }
    r := if x.keys == {"source_frame_id", "quality", "pose", "cov", "gyro_bias"} then Ok(x.kf) else Err(Incomplete);
  }

  // ----- Encoding -----

  /** Point clouds are copied into the log, even if kept in a file. */
  function SelfContained(o: Obs): Obs {
    if o.Cloud? then o.(external := false) else o
  }

  function AllSelfContained(os: seq<Obs>): (out: seq<Obs>)
    ensures |out| == |os| && forall i :: 0 <= i < |os| ==> out[i] == SelfContained(os[i])
  {
    seq(|os|, i requires 0 <= i < |os| => SelfContained(os[i]))
  }

  function BiasNumbers<N(!new)>(p: Numbers<N>, kf: Recorded<N>): seq<N> {
    kf.bias + [kf.sigma, if kf.fromSource then p.one else p.zero]
  }

  function TextLines<N(!new)>(p: Numbers<N>, kf: Recorded<N>): seq<string> {
    ["source_frame_id" + " " + kf.frame, "quality" + Spaced(p, [kf.quality]), "pose" + Spaced(p, kf.pose),
     "cov" + Spaced(p, kf.cov), "gyro_bias" + Spaced(p, BiasNumbers(p, kf))]
  }

  function Joined(lines: seq<string>): string {
    if lines == [] then "" else lines[0] + "\n" + Joined(lines[1..])
  }

  /** The entry of a request: its observations, then the comment. */
  function Encoded<N(!new)>(p: Numbers<N>, kf: Recorded<N>): seq<Obs> {
    AllSelfContained(kf.observations) + [Comment(KEYFRAME_LABEL, kf.stamp, Joined(TextLines(p, kf)))]
  }

  method Encode<N(!new)>(p: Numbers<N>, kf: Recorded<N>) returns (sf: seq<Obs>)
    requires WellSized(kf)
    ensures sf == Encoded(p, kf)
  {
    ghost var l := TextLines(p, kf);
    var s := "source_frame_id " + kf.frame + "\n";
    assert s == l[0] + "\n" by {
      assert "source_frame_id " == "source_frame_id" + " ";
    }
    s := s + "quality";
    s := WriteNumbers(p, s, [kf.quality]);
    LineAdded(l[0] + "\n", "quality", Spaced(p, [kf.quality]));
    s := s + "pose";
    s := WriteNumbers(p, s, kf.pose);
    LineAdded(l[0] + "\n" + l[1] + "\n", "pose", Spaced(p, kf.pose));
    s := s + "cov";
    s := WriteNumbers(p, s, kf.cov);
    LineAdded(l[0] + "\n" + l[1] + "\n" + l[2] + "\n", "cov", Spaced(p, kf.cov));
    s := s + "gyro_bias";
    s := WriteNumbers(p, s, kf.bias + [kf.sigma, if kf.fromSource then p.one else p.zero]);
    LineAdded(l[0] + "\n" + l[1] + "\n" + l[2] + "\n" + l[3] + "\n", "gyro_bias", Spaced(p, BiasNumbers(p, kf)));
    JoinedFive(l);
    sf := [];
    for i := 0 to |kf.observations|
      invariant sf == AllSelfContained(kf.observations)[..i]
    {
      sf := sf + [SelfContained(kf.observations[i])];
    }
    sf := sf + [Comment(KEYFRAME_LABEL, kf.stamp, s)];
  }

  lemma LineAdded(a: string, key: string, numbers: string)
    ensures a + key + numbers + "\n" == a + (key + numbers) + "\n"
  {
  }

  lemma JoinedFive(l: seq<string>)
    requires |l| == 5
    ensures Joined(l) == l[0] + "\n" + l[1] + "\n" + l[2] + "\n" + l[3] + "\n" + l[4] + "\n"
  {
    assert l[1..][1..] == l[2..] && l[2..][1..] == l[3..] && l[3..][1..] == l[4..] && l[4..][1..] == [];
    assert Joined(l[4..]) == l[4] + "\n";
    assert Joined(l[3..]) == l[3] + "\n" + Joined(l[4..]);
    assert Joined(l[2..]) == l[2] + "\n" + Joined(l[3..]);
    assert Joined(l[1..]) == l[1] + "\n" + Joined(l[2..]);
  }

  // ----- Numbers read back -----

  lemma {:induction false} SpacedFront<N(!new)>(p: Numbers<N>, v: seq<N>)
    requires v != []
    ensures Spaced(p, v) == " " + p.show(v[0]) + Spaced(p, v[1..])
  {
    var n := |v| - 1;
    if n > 0 {
      SpacedFront(p, v[..n]);
      assert v[1..][..n - 1] == v[..n][1..];
    }
  }

  lemma {:induction false} TokenEnds(s: string, i: nat, j: nat)
    requires i <= j <= |s| && forall k :: i <= k < j ==> !IsSpace(s[k])
    requires j == |s| || IsSpace(s[j])
    ensures TokenEnd(s, i) == j
    decreases j - i
  {
    if i < j {
      TokenEnds(s, i + 1, j);
    }
  }

  /** A token at position `i`, ended by a space or the end. */
  lemma ReadToken<N(!new)>(p: Numbers<N>, s: string, i: nat, e: nat, x: N)
    requires i < e <= |s| && IsToken(s[i..e]) && p.parse(s[i..e]) == Some(x)
    requires e == |s| || IsSpace(s[e])
    ensures NumbersFrom(p, s, i) == match NumbersFrom(p, s, e) case Err(error) => Err(error) case Ok(v) => Ok([x] + v)
  {
    assert forall k :: i <= k < e ==> s[k] == s[i..e][k - i];
    TokenEnds(s, i, e);
  }

  lemma Middle(a: string, b: string, c: string)
    ensures (a + b + c)[|a|..|a| + |b|] == b && |a + b + c| == |a| + |b| + |c|
    ensures c != "" ==> (a + b + c)[|a| + |b|] == c[0]
  {
  }

  lemma {:induction false} TokenThenMore<N(!new)>(p: Numbers<N>, before: string, x: N, v: seq<N>)
    requires IsExact(p)
    ensures NumbersFrom(p, before + p.show(x) + Spaced(p, v), |before|) == Ok([x] + v)
    decreases |v|
  {
    hide Spaced, NumbersFrom;
    assert ReadsBack(p, x);
    var token, more := p.show(x), Spaced(p, v);
    var s := before + token + more;
    var e := |before| + |token|;
    Middle(before, token, more);
    if v == [] {
      SpacedNone(p);
      ReadToken(p, s, |before|, e, x);
      NoMoreNumbers(p, s);
    } else {
      SpacedFront(p, v);
      Reassociate(before, token, p.show(v[0]), Spaced(p, v[1..]));
      ReadToken(p, s, |before|, e, x);
      TokenThenMore(p, before + token + " ", v[0], v[1..]);
      SkipOne(p, s, e);
      assert [v[0]] + v[1..] == v;
    }
  }

  lemma SpacedNone<N(!new)>(p: Numbers<N>)
    ensures Spaced(p, []) == ""
  {
  }

  lemma NoMoreNumbers<N(!new)>(p: Numbers<N>, s: string)
    ensures NumbersFrom(p, s, |s|) == Ok([])
  {
  }

  lemma SkipOne<N(!new)>(p: Numbers<N>, s: string, i: nat)
    requires i < |s| && IsSpace(s[i])
    ensures NumbersFrom(p, s, i) == NumbersFrom(p, s, i + 1)
  {
  }

  lemma Reassociate(a: string, b: string, c: string, d: string)
    ensures a + b + (" " + c + d) == (a + b + " ") + c + d
  {
  }

  lemma NumbersReadBack<N(!new)>(p: Numbers<N>, v: seq<N>)
    requires IsExact(p) && v != []
    ensures Spaced(p, v) != "" && Spaced(p, v)[0] == ' ' && NumbersFrom(p, Spaced(p, v)[1..], 0) == Ok(v)
  {
    hide Spaced, NumbersFrom;
    SpacedFront(p, v);
    TokenThenMore(p, "", v[0], v[1..]);
    var token, more := p.show(v[0]), Spaced(p, v[1..]);
    assert (" " + token + more)[1..] == token + more == "" + token + more;
    assert [v[0]] + v[1..] == v;
  }

  // ----- Lines read back -----

  predicate OneLine(s: string) {
    forall i :: 0 <= i < |s| ==> s[i] != '\n'
  }

  lemma {:induction false} SpacedOneLine<N(!new)>(p: Numbers<N>, v: seq<N>)
    requires IsExact(p)
    ensures OneLine(Spaced(p, v))
  {
    if v != [] {
      SpacedOneLine(p, v[..|v| - 1]);
      assert ReadsBack(p, v[|v| - 1]);
    }
  }

  lemma {:induction false} FindShift(a: string, b: string, c: char, i: nat)
    requires i <= |b|
    ensures Find(a + b, c, |a| + i) == |a| + Find(b, c, i)
    decreases |b| - i
  {
    if i < |b| && b[i] != c {
      FindShift(a, b, c, i + 1);
    }
  }

  lemma {:induction false} LinesShift(a: string, b: string, i: nat)
    requires i <= |b|
    ensures LinesFrom(a + b, |a| + i) == LinesFrom(b, i)
    decreases |b| - i
  {
    hide Find, LinesFrom;
    var s := a + b;
    if i < |b| {
      FindShift(a, b, '\n', i);
      var j := Find(b, '\n', i);
      LinesAt(b, i, j);
      LinesAt(s, |a| + i, |a| + j);
      SliceShift(a, b, i, j);
      if j < |b| {
        LinesShift(a, b, j + 1);
      }
    } else {
      LinesAtEnd(b);
      LinesAtEnd(s);
    }
  }

  lemma LinesAt(s: string, i: nat, j: nat)
    requires i < |s| && j == Find(s, '\n', i)
    ensures LinesFrom(s, i) == [s[i..j]] + if j == |s| then [] else LinesFrom(s, j + 1)
  {
  }

  lemma LinesAtEnd(s: string)
    ensures LinesFrom(s, |s|) == []
  {
  }

  lemma SliceShift(a: string, b: string, i: nat, j: nat)
    requires i <= j <= |b|
    ensures (a + b)[|a| + i..|a| + j] == b[i..j]
  {
  }

  lemma {:induction false} LinesReadBack(lines: seq<string>)
    requires AllOneLine(lines)
    ensures LinesFrom(Joined(lines), 0) == lines
  {
    if lines != [] {
      var first, more := lines[0] + "\n", Joined(lines[1..]);
      LinesReadBack(lines[1..]);
      LinesShift(first, more, 0);
      assert (first + more)[|lines[0]|] == '\n';
      assert Find(first + more, '\n', 0) == |lines[0]|;
      assert (first + more)[..|lines[0]|] == lines[0];
    }
  }

  lemma KeyReadsBack(key: string, rest: string)
    requires PlainKey(key)
    ensures KeyOf(key + " " + rest) == key && RestOf(key + " " + rest) == rest
  {
    var line := key + " " + rest;
    assert line[|key|] == ' ';
    assert Find(line, ' ', 0) == |key| by {
      assert forall i :: 0 <= i < |key| ==> line[i] == key[i];
    }
    assert line[..|key|] == key && line[|key| + 1..] == rest;
  }

  predicate PlainKey(key: string) {
    forall i :: 0 <= i < |key| ==> key[i] != '\n' && key[i] != ' '
  }

  lemma KeysArePlain()
    ensures PlainKey("source_frame_id") && PlainKey("quality") && PlainKey("pose") && PlainKey("cov")
        && PlainKey("gyro_bias")
  {
  }

  lemma NumberLine<N(!new)>(p: Numbers<N>, key: string, v: seq<N>)
    requires IsExact(p) && v != [] && PlainKey(key)
    ensures
      var line := key + Spaced(p, v);
      OneLine(line) && KeyOf(line) == key && NumbersFrom(p, RestOf(line), 0) == Ok(v)
  {
    hide Spaced, NumbersFrom, KeyOf, RestOf, OneLine, PlainKey;
    SpacedOneLine(p, v);
    NumbersReadBack(p, v);
    KeyLine(key, Spaced(p, v));
  }

  lemma KeyLine(key: string, numbers: string)
    requires PlainKey(key) && OneLine(numbers) && numbers != "" && numbers[0] == ' '
    ensures OneLine(key + numbers) && KeyOf(key + numbers) == key && RestOf(key + numbers) == numbers[1..]
  {
    assert key + numbers == key + " " + numbers[1..];
    KeyReadsBack(key, numbers[1..]);
  }

  // ----- Requests read back -----

  /** One line, when its key and what follows are known. */
  lemma DecodeFirst<N(!new)>(p: Numbers<N>, lines: seq<string>, x: Parsed<N>, key: string, kf: Recorded<N>)
    requires lines != [] && KeyOf(lines[0]) == key && DecodeLine(p, key, RestOf(lines[0]), x.kf) == Ok(kf)
    ensures DecodeLines(p, lines, x) == DecodeLines(p, lines[1..], Parsed(kf, x.keys + {key}))
  {
  }

  function WithText<N>(x: Recorded<N>, kf: Recorded<N>): Recorded<N> {
    x.(frame := kf.frame, quality := kf.quality, pose := kf.pose, cov := kf.cov,
       bias := kf.bias, sigma := kf.sigma, fromSource := kf.fromSource)
  }

  lemma FrameLine(frame: string)
    requires OneLine(frame)
    ensures OneLine("source_frame_id" + " " + frame)
  {
  }

  ghost predicate AllOneLine(lines: seq<string>) {
    forall i :: 0 <= i < |lines| ==> OneLine(lines[i])
  }

  lemma FiveOneLine(a: string, b: string, c: string, d: string, e: string)
    requires OneLine(a) && OneLine(b) && OneLine(c) && OneLine(d) && OneLine(e)
    ensures AllOneLine([a, b, c, d, e])
  {
    hide OneLine;
  }

  lemma AllLinesOneLine<N(!new)>(p: Numbers<N>, kf: Recorded<N>)
    requires IsExact(p) && WellSized(kf) && OneLine(kf.frame)
    ensures AllOneLine(TextLines(p, kf))
  {
    hide Spaced, OneLine, PlainKey, KeyOf, RestOf, NumbersFrom, IsExact, AllOneLine;
    var b := BiasNumbers(p, kf);
    FrameLine(kf.frame);
    KeysArePlain();
    NumberLine(p, "quality", [kf.quality]);
    NumberLine(p, "pose", kf.pose);
    NumberLine(p, "cov", kf.cov);
    NumberLine(p, "gyro_bias", b);
    FiveOneLine("source_frame_id" + " " + kf.frame, "quality" + Spaced(p, [kf.quality]), "pose" + Spaced(p, kf.pose),
                "cov" + Spaced(p, kf.cov), "gyro_bias" + Spaced(p, b));
  }

  /** The five lines give back the five fields, whatever was read before. */
  lemma LinesDecode<N(!new)>(p: Numbers<N>, kf: Recorded<N>, x: Parsed<N>)
    requires IsExact(p) && WellSized(kf)
    ensures DecodeLines(p, TextLines(p, kf), x) == Ok(Parsed(WithText(x.kf, kf), x.keys + KEYS))
  {
    hide Spaced, KeyOf, RestOf, DecodeLines, NumbersFrom;
    var l := TextLines(p, kf);
    var b := BiasNumbers(p, kf);
    KeysArePlain();
    hide PlainKey;
    KeyReadsBack("source_frame_id", kf.frame);
    NumberLine(p, "quality", [kf.quality]);
    NumberLine(p, "pose", kf.pose);
    NumberLine(p, "cov", kf.cov);
    NumberLine(p, "gyro_bias", b);
    assert b[..3] == kf.bias && (b[4] != p.zero <==> kf.fromSource);
    var x1 := x.kf.(frame := kf.frame);
    var x2 := x1.(quality := kf.quality);
    var x3 := x2.(pose := kf.pose);
    var x4 := x3.(cov := kf.cov);
    var k1 := x.keys + {"source_frame_id"};
    var k2 := k1 + {"quality"};
    var k3 := k2 + {"pose"};
    var k4 := k3 + {"cov"};
    DecodeFirst(p, l, x, "source_frame_id", x1);
    DecodeFirst(p, l[1..], Parsed(x1, k1), "quality", x2);
    DecodeFirst(p, l[2..], Parsed(x2, k2), "pose", x3);
    DecodeFirst(p, l[3..], Parsed(x3, k3), "cov", x4);
    DecodeFirst(p, l[4..], Parsed(x4, k4), "gyro_bias", WithText(x.kf, kf));
    assert l[1..][1..] == l[2..] && l[2..][1..] == l[3..] && l[3..][1..] == l[4..] && l[4..][1..] == [];
    NoLines(p, Parsed(WithText(x.kf, kf), k4 + {"gyro_bias"}));
    assert k4 + {"gyro_bias"} == x.keys + KEYS;
  }

  lemma NoLines<N(!new)>(p: Numbers<N>, x: Parsed<N>)
    ensures DecodeLines(p, [], x) == Ok(x)
  {
  }

  ghost predicate NoRequests(os: seq<Obs>) {
    forall i :: 0 <= i < |os| ==> !IsRequest(os[i])
  }

  lemma {:induction false} ObservationsDecode<N(!new)>(p: Numbers<N>, os: seq<Obs>, more: seq<Obs>, x: Parsed<N>)
    requires NoRequests(os)
    ensures DecodeAll(p, os + more, x) == DecodeAll(p, more, x.(kf := x.kf.(observations := x.kf.observations + os)))
    decreases |os|
  {
    if os == [] {
      assert os + more == more && x.kf.observations + os == x.kf.observations;
    } else {
      var y := x.(kf := x.kf.(observations := x.kf.observations + [os[0]]));
      assert (os + more)[1..] == os[1..] + more;
      ObservationsDecode(p, os[1..], more, y);
      assert y.kf.observations + os[1..] == x.kf.observations + os;
    }
  }

  /** The request as it is meant to be read back. */
  function Stored<N>(kf: Recorded<N>): Recorded<N> {
    kf.(observations := AllSelfContained(kf.observations))
  }

  /** Decoding undoes encoding: stamp, frame, pose, covariance, quality, bias and the order of
      the observations. */
  lemma DecodeEncoded<N(!new)>(p: Numbers<N>, kf: Recorded<N>, blank: Recorded<N>)
    requires IsExact(p) && WellSized(kf) && OneLine(kf.frame) && NoRequests(kf.observations)
    ensures Decode(p, Encoded(p, kf), blank) == Ok(Stored(kf))
  {
    hide DecodeLines, LinesFrom, Joined, TextLines;
    var os := AllSelfContained(kf.observations);
    var c := Comment(KEYFRAME_LABEL, kf.stamp, Joined(TextLines(p, kf)));
    var start := Parsed(blank.(observations := []), {});
    ObservationsDecode(p, os, [c], start);
    assert [] + os == os;
    AllLinesOneLine(p, kf);
    FiveLines(p, kf);
    LinesReadBack(TextLines(p, kf));
    var x := Parsed(blank.(observations := os, stamp := kf.stamp), {});
    LinesDecode(p, kf, x);
    assert {} + KEYS == KEYS;
    assert [c][1..] == [];
  }

  lemma FiveLines<N(!new)>(p: Numbers<N>, kf: Recorded<N>)
    ensures |TextLines(p, kf)| == 5
  {
  }

  // ----- When they do not -----

  lemma {:induction false} LinesHaveNoBreaks(s: string, i: nat)
    requires i <= |s|
    ensures forall k :: 0 <= k < |LinesFrom(s, i)| ==> OneLine(LinesFrom(s, i)[k])
    decreases |s| - i
  {
    if i < |s| {
      var j := Find(s, '\n', i);
      if j < |s| {
        LinesHaveNoBreaks(s, j + 1);
      }
    }
  }

  /** Once a request was read, the frame is a part of a line. */
  lemma {:induction false} FrameIsOneLine<N(!new)>(p: Numbers<N>, lines: seq<string>, x: Parsed<N>)
    requires forall k :: 0 <= k < |lines| ==> OneLine(lines[k])
    requires "source_frame_id" in x.keys ==> OneLine(x.kf.frame)
    ensures
      var r := DecodeLines(p, lines, x);
      r.Ok? ==>
        && ("source_frame_id" in r.value.keys ==> OneLine(r.value.kf.frame))
        && r.value.kf.observations == x.kf.observations
    decreases |lines|
  {
    if lines != [] {
      hide NumbersFrom;
      var r := DecodeLine(p, KeyOf(lines[0]), RestOf(lines[0]), x.kf);
      if r.Ok? {
        FrameIsOneLine(p, lines[1..], Parsed(r.value, x.keys + {KeyOf(lines[0])}));
      }
    }
  }

  function CountRequests(os: seq<Obs>): (n: nat)
    ensures n <= |os|
  {
    if os == [] then 0 else (if IsRequest(os[0]) then 1 else 0) + CountRequests(os[1..])
  }

  lemma {:induction false} WhatDecodeGives<N(!new)>(p: Numbers<N>, sf: seq<Obs>, x: Parsed<N>)
    requires "source_frame_id" in x.keys ==> OneLine(x.kf.frame)
    ensures
      var r := DecodeAll(p, sf, x);
      r.Ok? ==>
        && ("source_frame_id" in r.value.keys ==> OneLine(r.value.kf.frame))
        && |r.value.kf.observations| == |x.kf.observations| + |sf| - CountRequests(sf)
    decreases |sf|
  {
    if sf != [] {
      hide DecodeLines, LinesFrom;
      var r := DecodeObs(p, sf[0], x);
      if IsRequest(sf[0]) {
        LinesHaveNoBreaks(sf[0].text, 0);
        FrameIsOneLine(p, LinesFrom(sf[0].text, 0), x.(kf := x.kf.(stamp := sf[0].stamp)));
      }
      if r.Ok? {
        WhatDecodeGives(p, sf[1..], r.value);
      }
    }
  }

  lemma {:induction false} CountEncoded(os: seq<Obs>, c: Obs)
    requires IsRequest(c)
    ensures CountRequests(AllSelfContained(os) + [c]) >= 1
    ensures CountRequests(AllSelfContained(os) + [c]) == 1 <==> NoRequests(os)
  {
    var sf := AllSelfContained(os) + [c];
    if os == [] {
      assert sf == [c] && [c][1..] == [];
    } else {
      CountEncoded(os[1..], c);
      assert sf[1..] == AllSelfContained(os[1..]) + [c];
      assert sf[0] == SelfContained(os[0]);
      assert NoRequests(os) <==> !IsRequest(os[0]) && NoRequests(os[1..]) by {
        assert forall i :: 1 <= i < |os| ==> os[i] == os[1..][i - 1];
      }
    }
  }

  /** Exactly the requests whose frame has no line break, and without comments of the reserved
      label among their observations, are read back. */
  lemma RoundTrip<N(!new)>(p: Numbers<N>, kf: Recorded<N>, blank: Recorded<N>)
    requires IsExact(p) && WellSized(kf)
    ensures Decode(p, Encoded(p, kf), blank) == Ok(Stored(kf)) <==> OneLine(kf.frame) && NoRequests(kf.observations)
  {
    if OneLine(kf.frame) && NoRequests(kf.observations) {
      DecodeEncoded(p, kf, blank);
    } else {
      hide DecodeAll, CountRequests, TextLines, Joined, NoRequests, OneLine;
      WhatDecodeGives(p, Encoded(p, kf), Parsed(blank.(observations := []), {}));
      CountEncoded(kf.observations, Comment(KEYFRAME_LABEL, kf.stamp, Joined(TextLines(p, kf))));
    }
  }

  // ----- A printer -----

  function ShowUnary(n: nat): string {
    if n == 0 then "0" else "1" + ShowUnary(n - 1)
  }

  function ParseUnary(s: string): Option<nat> {
    if s == "" then None
    else if s[0] == '0' then if |s| == 1 then Some(0) else None
    else if s[0] != '1' then None
    else
      match ParseUnary(s[1..])
      case None => None
      case Some(n) => Some(n + 1)
  }

  lemma {:induction false} UnaryReadsBack(n: nat)
    ensures IsToken(ShowUnary(n)) && ParseUnary(ShowUnary(n)) == Some(n)
  {
    if n > 0 {
      UnaryReadsBack(n - 1);
      assert ShowUnary(n)[1..] == ShowUnary(n - 1);
    }
  }

  /** The contract of a printer can be met. */
  lemma ExactPrinterExists()
    ensures IsExact(Numbers(ShowUnary, ParseUnary, 0, 1))
  {
    var p := Numbers(ShowUnary, ParseUnary, 0, 1);
    forall n: nat ensures ReadsBack(p, n) {
      UnaryReadsBack(n);
    }
  }
}
