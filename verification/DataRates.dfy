/**
  Data rates (backend/pktfwd/backend.go) and their JSON form (DatR in backend/pktfwd/structs.go):
  a LoRa rate travels as the text SF<n>BW<n> in quotes, an FSK rate as a bare number. Printing and
  parsing are followed down to the characters.
 */
module DataRates {
  import opened Machine
  import opened Text

  datatype Modulation = LoRa | FSK | Other(name: string)

  datatype DataRate = DataRate(modulation: Modulation, spreadFactor: int, bandwidth: int, bitRate: int)

  /** An empty lora means that the rate is the number. */
  datatype DatR = DatR(lora: string, fsk: int)

  datatype Parsed = Rate(rate: DataRate) | BadLoRa | NotAnInt | Empty

  datatype Match = Found(first: string, second: string) | NoMatch

  predicate IsInt(n: int) {
    -MAX_INT - 1 <= n <= MAX_INT
  }

  predicate FitsGoInts(d: DataRate) {
    IsInt(d.spreadFactor) && IsInt(d.bandwidth) && IsInt(d.bitRate)
  }

  // ---------------------------------------------------------------- the regular expression

  /** SF(\d+)BW(\d+) at the front of s; both digit runs are greedy, and no shorter run can match. */
  function MatchHere(s: string): Match {
    if !("SF" <= s) then NoMatch
    else
      var n := DigitRun(s[2..]);
      var rest := s[2..][n..];
      if n == 0 || !("BW" <= rest) then NoMatch
      else
        var m := DigitRun(rest[2..]);
        if m == 0 then NoMatch else Found(s[2..][..n], rest[2..][..m])
  }

  /** The leftmost match. */
  function FindMatch(s: string): Match
    decreases |s|
  {
    if MatchHere(s).Found? then MatchHere(s) else if s == "" then NoMatch else FindMatch(s[1..])
  }

  // ---------------------------------------------------------------- the four conversions

  function ToDatR(d: DataRate): DatR {
    if d.modulation.LoRa? then DatR("SF" + DecimalInt(d.spreadFactor) + "BW" + DecimalInt(d.bandwidth), 0)
    else DatR("", d.bitRate % TWO_32)
  }

  function MarshalJSON(d: DatR): string
    requires d.fsk >= 0
  {
    if d.lora != "" then "\"" + d.lora + "\"" else Decimal(d.fsk)
  }

  /** strconv.ParseUint(s, 10, 32) */
  predicate IsUint32(s: string) {
    s != "" && AllDigits(s) && DecimalValue(s) < TWO_32
  }

  /** UnmarshalJSON into a receiver; anything that is no 32-bit number is taken for a LoRa rate. */
  function UnmarshalJSON(into: DatR, data: string): DatR {
    if IsUint32(data) then into.(fsk := DecimalValue(data)) else into.(lora := Trim(data, '\"'))
  }

  function FromDatR(d: DatR): Parsed {
    if d.lora != "" then
      match FindMatch(d.lora)
      case NoMatch => BadLoRa
      case Found(sf, bw) =>
        if !AllDigits(sf) || !AllDigits(bw) || DecimalValue(sf) > MAX_INT || DecimalValue(bw) > MAX_INT then NotAnInt
        else Rate(DataRate(LoRa, DecimalValue(sf), DecimalValue(bw), 0))
    else if d.fsk != 0 then Rate(DataRate(FSK, 0, 0, d.fsk))
    else Empty
  }

  /** A rate sent as JSON and read back. */
  function Transmit(d: DataRate): Parsed {
    FromDatR(UnmarshalJSON(DatR("", 0), MarshalJSON(ToDatR(d))))
  }

  // ---------------------------------------------------------------- the round trip

  lemma TrimsQuotes(s: string)
    requires s != "" && s[0] != '\"' && s[|s| - 1] != '\"'
    ensures Trim("\"" + s + "\"", '\"') == s
  {
    var q := "\"" + s + "\"";
    assert q[1..] == s + "\"";
    assert (s + "\"")[..|s|] == s;
    assert (s + "\"")[0] == s[0];
    assert Trim(s, '\"') == s;
    assert Trim(s + "\"", '\"') == s;
  }

  lemma {:induction false} NoMatchWithoutS(s: string)
    requires forall i | 0 <= i < |s| :: s[i] != 'S'
    ensures FindMatch(s) == NoMatch
    decreases |s|
  {
    if s != "" {
      assert s[0] != "SF"[0];
      NoMatchWithoutS(s[1..]);
    }
  }

  lemma DecimalIntCharacters(n: int)
    ensures var s := DecimalInt(n);
            && (forall i | 0 <= i < |s| :: IsDigit(s[i]) || s[i] == '-')
            && IsDigit(s[|s| - 1])
            && (if n >= 0 then AllDigits(s) && DecimalValue(s) == n else s[0] == '-')
  {
    DecimalRoundTrip(if n < 0 then -n else n);
  }

  lemma LoRaText(sf: int, bw: int)
    ensures FindMatch("SF" + DecimalInt(sf) + "BW" + DecimalInt(bw))
            == if sf >= 0 && bw >= 0 then Found(DecimalInt(sf), DecimalInt(bw)) else NoMatch
  {
    hide DecimalInt;
    DecimalIntCharacters(sf);
    DecimalIntCharacters(bw);
    var a, b := DecimalInt(sf), DecimalInt(bw);
    var s := "SF" + a + "BW" + b;
    assert s[2..] == a + ("BW" + b);
    if sf >= 0 {
      DigitRunStops(a, "BW" + b);
      assert s[2..][..|a|] == a && s[2..][|a|..] == "BW" + b;
      assert ("BW" + b)[2..] == b;
      if bw >= 0 {
        DigitRunStops(b, "");
        assert b + "" == b && b[..|b|] == b;
      }
    }
    if sf < 0 || bw < 0 {
      assert MatchHere(s) == NoMatch;
      NoMatchWithoutS(s[1..]);
    }
  }

  lemma TransmitLoRa(d: DataRate)
    requires FitsGoInts(d) && d.modulation.LoRa?
    ensures Transmit(d) == if d.spreadFactor >= 0 && d.bandwidth >= 0
                           then Rate(DataRate(LoRa, d.spreadFactor, d.bandwidth, 0)) else BadLoRa
  {
    hide DecimalInt, FindMatch, Trim;
    var text := ToDatR(d).lora;
    DecimalIntCharacters(d.spreadFactor);
    DecimalIntCharacters(d.bandwidth);
    LoRaText(d.spreadFactor, d.bandwidth);
    TrimsQuotes(text);
    assert !IsDigit(MarshalJSON(ToDatR(d))[0]);
  }

  lemma TransmitNumber(d: DataRate)
    requires !d.modulation.LoRa?
    ensures Transmit(d) == if d.bitRate % TWO_32 == 0 then Empty else Rate(DataRate(FSK, 0, 0, d.bitRate % TWO_32))
  {
    DecimalRoundTrip(d.bitRate % TWO_32);
  }

  // ---------------------------------------------------------------- the text in between

  /** The JSON of a LoRa rate is its text in quotes, of any other rate a bare number. */
  lemma JsonText(d: DataRate)
    ensures var json := MarshalJSON(ToDatR(d));
            if d.modulation.LoRa? then json == ['\"'] + ("SF" + DecimalInt(d.spreadFactor) + "BW" + DecimalInt(d.bandwidth)) + ['\"']
            else AllDigits(json) && DecimalValue(json) == d.bitRate % 0x1_0000_0000
  {
    DecimalRoundTrip(d.bitRate % TWO_32);
  }

  /** A number below 2^32 is read as an FSK rate; a greater one, and a text in quotes, as a LoRa rate. */
  lemma JsonReads(into: DatR, n: nat, s: string)
    ensures UnmarshalJSON(into, Decimal(n)) ==
            if n < 0x1_0000_0000 then into.(fsk := n) else into.(lora := Decimal(n))
    ensures s != "" && s[0] != '\"' && s[|s| - 1] != '\"' ==> UnmarshalJSON(into, ['\"'] + s + ['\"']) == into.(lora := s)
  {
    DecimalRoundTrip(n);
    assert Trim(Decimal(n), '\"') == Decimal(n);
    if s != "" && s[0] != '\"' && s[|s| - 1] != '\"' {
      TrimsQuotes(s);
      assert !IsDigit((['\"'] + s + ['\"'])[0]);
    }
  }

  /** The pattern of a LoRa rate somewhere in s: before it p, behind it r. */
  predicate IsSplit(s: string, p: string, a: string, b: string, r: string) {
    s == p + ("SF" + (a + ("BW" + (b + r)))) && a != "" && AllDigits(a) && b != "" && AllDigits(b)
  }

  lemma MatchesHere(s: string)
    ensures match MatchHere(s)
            case Found(a, b) => exists r :: IsSplit(s, "", a, b, r) && (r == "" || !IsDigit(r[0]))
            case NoMatch => forall a, b, r :: !IsSplit(s, "", a, b, r)
  {
    hide MatchHere, IsSplit;
    if MatchHere(s).Found? {
      var r := WhatMatches(s);
    }
    forall a, b, r | IsSplit(s, "", a, b, r) ensures MatchHere(s).Found? {
      SplitMatches(s, a, b, r);
    }
  }

  lemma WhatMatches(s: string) returns (r: string)
    requires MatchHere(s).Found?
    ensures IsSplit(s, "", MatchHere(s).first, MatchHere(s).second, r) && (r == "" || !IsDigit(r[0]))
  {
    var a, b := MatchHere(s).first, MatchHere(s).second;
    var rest := s[2..][|a|..];
    r := rest[2..][|b|..];
    Cut(s, "SF", a);
    Cut(rest, "BW", b);
  }

  lemma Cut(s: string, mark: string, run: string)
    requires mark <= s && run <= s[|mark|..]
    ensures s == mark + (run + s[|mark|..][|run|..])
  {
  }

  lemma SplitMatches(s: string, a: string, b: string, r: string)
    requires IsSplit(s, "", a, b, r)
    ensures MatchHere(s).Found?
  {
    var rest := "BW" + (b + r);
    assert s == "SF" + (a + rest) && s[2..] == a + rest;
    DigitRunStops(a, rest);
    assert (a + rest)[|a|..] == rest && rest[2..] == b + r && (b + r)[0] == b[0];
  }

  /**
    The search finds the pattern wherever it stands, and only then; what it finds is there, and its
    second number is not cut short.
   */
  lemma {:induction false} FindsThePattern(s: string)
    ensures FindMatch(s).Found? <==> exists p, a, b, r :: IsSplit(s, p, a, b, r)
    ensures FindMatch(s).Found? ==>
              exists p, r :: IsSplit(s, p, FindMatch(s).first, FindMatch(s).second, r) && (r == "" || !IsDigit(r[0]))
    decreases |s|
  {
    hide IsSplit, MatchHere;
    MatchesHere(s);
    if MatchHere(s) == NoMatch {
      if s != "" {
        FindsThePattern(s[1..]);
        forall p, a, b, r | IsSplit(s[1..], p, a, b, r) ensures IsSplit(s, [s[0]] + p, a, b, r) {
          SplitLater(s, p, a, b, r);
        }
      }
      forall p, a, b, r | IsSplit(s, p, a, b, r) ensures s != "" && IsSplit(s[1..], p[1..], a, b, r) {
        assert p != "";
        SplitEarlier(s, p, a, b, r);
      }
    }
  }

  lemma SplitLater(s: string, p: string, a: string, b: string, r: string)
    requires s != "" && IsSplit(s[1..], p, a, b, r)
    ensures IsSplit(s, [s[0]] + p, a, b, r)
  {
    var rest := "SF" + (a + ("BW" + (b + r)));
    assert s == [s[0]] + s[1..] == [s[0]] + (p + rest) == ([s[0]] + p) + rest;
  }

  lemma SplitEarlier(s: string, p: string, a: string, b: string, r: string)
    requires p != "" && IsSplit(s, p, a, b, r)
    ensures s != "" && IsSplit(s[1..], p[1..], a, b, r)
  {
    var rest := "SF" + (a + ("BW" + (b + r)));
    assert (p + rest)[1..] == p[1..] + rest;
  }

  /** Numbers in the text are read up to the largest int. */
  lemma ReadsNumbers(a: nat, b: nat, fsk: int)
    ensures FromDatR(DatR("SF" + Decimal(a) + "BW" + Decimal(b), fsk)) ==
            if a <= MAX_INT && b <= MAX_INT then Rate(DataRate(LoRa, a, b, 0)) else NotAnInt
  {
    hide FindMatch, Decimal;
    LoRaText(a, b);
    DecimalRoundTrip(a);
    DecimalRoundTrip(b);
  }

  /** What a caller can check before sending a rate. */
  predicate Transmissible(d: DataRate) {
    || (d.modulation.LoRa? && d.spreadFactor >= 0 && d.bandwidth >= 0 && d.bitRate == 0)
    || (d.modulation.FSK? && d.spreadFactor == 0 && d.bandwidth == 0 && 1 <= d.bitRate < TWO_32)
  }

  /** A data rate survives the way to JSON and back exactly when it is transmissible. */
  lemma RoundTripIsExact(d: DataRate)
    requires FitsGoInts(d)
    ensures Transmit(d) == Rate(d) <==> Transmissible(d)
  {
    hide Transmit;
    if d.modulation.LoRa? {
      TransmitLoRa(d);
    } else {
      TransmitNumber(d);
    }
  }
}
