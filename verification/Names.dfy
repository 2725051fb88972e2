/** The names of stencil functions: how the macro makes them (`crates/patchouly-macros/src/stencil.rs`), and how
    they are taken apart again (`crates/patchouly-build/src/extract.rs`, `crates/patchouly-build/src/structs.rs`). */
module Names {
  import opened Wrappers
  import opened Locations

  // ----- numbers -----

  function DigitChar(d: nat): (c: char)
    requires d < 10
    ensures IsDigit(c) && c as int - '0' as int == d
  {
    ('0' as int + d) as char
  }

  predicate IsDigit(c: char) {
    '0' <= c <= '9'
  }

  predicate AllDigits(s: string) {
    forall i :: 0 <= i < |s| ==> IsDigit(s[i])
  }

  function Decimal(n: nat): string {
    if n < 10 then [DigitChar(n)] else Decimal(n / 10) + [DigitChar(n % 10)]
  }

  function DecimalValue(s: string): int {
    if s == "" then 0 else 10 * DecimalValue(s[..|s| - 1]) + (s[|s| - 1] as int - '0' as int)
  }

  lemma {:induction false} DecimalRoundTrip(n: nat)
    ensures Decimal(n) != "" && AllDigits(Decimal(n)) && DecimalValue(Decimal(n)) == n
  {
    if n < 10 {
      assert [DigitChar(n)][..0] == "";
    } else {
      DecimalRoundTrip(n / 10);
      var s := Decimal(n);
      assert s[..|s| - 1] == Decimal(n / 10);
    }
  }

  /** Parsing a 16-bit number: an optional plus sign and decimal digits. */
  function ParseU16(s: string): Option<nat> {
    var digits := if s != "" && s[0] == '+' then s[1..] else s;
    if digits == "" || !AllDigits(digits) || !(0 <= DecimalValue(digits) < U16_LIMIT) then None
    else Some(DecimalValue(digits))
  }

  // ----- lists of operands -----

  function Join(ts: seq<nat>): string {
    if ts == [] then ""
    else if |ts| == 1 then Decimal(ts[0])
    else Join(ts[..|ts| - 1]) + "_" + Decimal(ts[|ts| - 1])
  }

  /** The pieces between underscores. */
  function Pieces(s: string): (r: seq<string>)
    ensures r != []
  {
    if s == "" then [""]
    else
      var (before, c) := (Pieces(s[..|s| - 1]), s[|s| - 1]);
      if c == '_' then before + [""] else before[..|before| - 1] + [before[|before| - 1] + [c]]
  }

  lemma {:induction false} LastPiece(s: string, piece: string)
    requires '_' !in piece
    ensures Pieces(s + "_" + piece) == Pieces(s) + [piece]
    decreases |piece|
  {
    hide Pieces;
    var all := s + "_" + piece;
    if piece == "" {
      PiecesSnoc(s, '_');
      assert all == s + ['_'];
    } else {
      var (init, c) := (piece[..|piece| - 1], piece[|piece| - 1]);
      LastPiece(s, init);
      PiecesSnoc(s + "_" + init, c);
      assert all == s + "_" + init + [c] && piece == init + [c];
      assert (Pieces(s) + [init])[..|Pieces(s)|] == Pieces(s);
    }
  }

  lemma PiecesSnoc(s: string, c: char)
    ensures Pieces(s + [c])
      == if c == '_' then Pieces(s) + [""]
         else Pieces(s)[..|Pieces(s)| - 1] + [Pieces(s)[|Pieces(s)| - 1] + [c]]
  {
    assert (s + [c])[..|s + [c]| - 1] == s;
  }

  lemma {:induction false} OnePiece(piece: string)
    requires '_' !in piece
    ensures Pieces(piece) == [piece]
  {
    if piece != "" {
      OnePiece(piece[..|piece| - 1]);
      assert piece == piece[..|piece| - 1] + [piece[|piece| - 1]];
    }
  }

  function ParseArg(piece: string): Option<Location> {
    if piece == "0" then Some(Location.Stack(0))
    else
      match ParseU16(piece)
      case None => None
      case Some(n) => Some(Register((n - 1) % U16_LIMIT))
  }

  function ParsePieces(pieces: seq<string>): Option<seq<Location>> {
    if pieces == [] then Some([])
    else
      match ParsePieces(pieces[..|pieces| - 1])
      case None => None
      case Some(before) =>
        match ParseArg(pieces[|pieces| - 1])
        case None => None
        case Some(l) => Some(before + [l])
  }

  function ParsedArgs(args: string): Option<seq<Location>> {
    if args == "" then Some([]) else ParsePieces(Pieces(args))
  }

  /** `parse_args`. */
  method ParseArgs(text: string) returns (r: Option<seq<Location>>)
    ensures r == ParsedArgs(text)
  {
    if text == "" {
      return Some([]);
    }
    var pieces := Pieces(text);
    var args: seq<Location> := [];
    var k := 0;
    while k < |pieces|
      invariant 0 <= k <= |pieces| && ParsePieces(pieces[..k]) == Some(args)
    {
      assert pieces[..k + 1][..k] == pieces[..k];
      if pieces[k] == "0" {
        args := args + [Location.Stack(0)];
      } else {
        match ParseU16(pieces[k]) {
          case None =>
            FailsOnce(pieces, k + 1);
            return None;
          case Some(n) => args := args + [Register((n - 1) % U16_LIMIT)];
        }
      }
      k := k + 1;
    }
    assert pieces[..k] == pieces;
    return Some(args);
  }

  lemma {:induction false} FailsOnce(pieces: seq<string>, k: nat)
    requires k <= |pieces| && ParsePieces(pieces[..k]) == None
    ensures ParsePieces(pieces) == None
    decreases |pieces| - k
  {
    if k < |pieces| {
      assert pieces[..k + 1][..k] == pieces[..k];
      FailsOnce(pieces, k + 1);
    } else {
      assert pieces[..k] == pieces;
    }
  }

  /** The locations that the digits of an assignment stand for. */
  function FromDigits(ts: seq<nat>): (r: seq<Location>)
    ensures |r| == |ts| && forall i :: 0 <= i < |r| ==> r[i] == FromBits(ts[i])
  {
    seq(|ts|, i requires 0 <= i < |ts| => FromBits(ts[i]))
  }

  predicate AllU16(ts: seq<nat>) {
    forall i :: 0 <= i < |ts| ==> ts[i] < U16_LIMIT
  }

  lemma ParseDecimal(n: nat)
    requires n < U16_LIMIT
    ensures ParseArg(Decimal(n)) == Some(FromBits(n)) && '_' !in Decimal(n)
  {
    DecimalRoundTrip(n);
    ZeroValue();
    assert IsDigit(Decimal(n)[0]);
  }

  lemma ZeroValue()
    ensures Decimal(0) == "0" && DecimalValue("0") == 0
  {
    assert "0"[..0] == "";
  }

  lemma ParseSnoc(pieces: seq<string>, piece: string, before: seq<Location>, l: Location)
    requires ParsePieces(pieces) == Some(before) && ParseArg(piece) == Some(l)
    ensures ParsePieces(pieces + [piece]) == Some(before + [l])
  {
    hide ParseArg;
    assert (pieces + [piece])[..|pieces|] == pieces;
  }

  lemma DigitsSnoc(ts: seq<nat>)
    requires ts != []
    ensures var n := |ts| - 1; FromDigits(ts) == FromDigits(ts[..n]) + [FromBits(ts[n])]
  {
  }

  /** An operand list is parsed back to its locations. */
  lemma {:induction false} JoinRoundTrip(ts: seq<nat>)
    requires AllU16(ts)
    ensures ParsedArgs(Join(ts)) == Some(FromDigits(ts))
    ensures ts != [] ==> Join(ts) != "" && ParsePieces(Pieces(Join(ts))) == Some(FromDigits(ts))
  {
    hide ParseArg, Pieces, Decimal, ParsePieces, FromDigits;
    if ts != [] {
      var n := |ts| - 1;
      var (init, last) := (ts[..n], Decimal(ts[n]));
      JoinRoundTrip(init);
      ParseDecimal(ts[n]);
      DecimalRoundTrip(ts[n]);
      DigitsSnoc(ts);
      if n == 0 {
        OnePiece(last);
        NoPieces();
        ParseSnoc([], last, [], FromBits(ts[n]));
        assert FromDigits(init) == [] && [] + [last] == [last];
      } else {
        LastPiece(Join(init), last);
        ParseSnoc(Pieces(Join(init)), last, FromDigits(init), FromBits(ts[n]));
      }
    } else {
      NoPieces();
      assert FromDigits(ts) == [];
    }
  }

  lemma NoPieces()
    ensures ParsePieces([]) == Some([])
  {
  }

  // ----- splitting at double underscores -----

  predicate Double(s: string, k: int) {
    0 <= k && k + 1 < |s| && s[k] == '_' && s[k + 1] == '_'
  }

  /** The first double underscore at or after `from`, or the length. */
  function Find(s: string, from: nat): (k: nat)
    requires from <= |s|
    ensures from <= k <= |s| && (k < |s| ==> Double(s, k)) && forall j :: from <= j < k ==> !Double(s, j)
    decreases |s| - from
  {
    if from == |s| || Double(s, from) then from else Find(s, from + 1)
  }

  /** The piece at `position`, and where the next one starts.  A double underscore at the very start
      does not separate. */
  function TokenAt(s: string, position: nat): (Option<string>, nat)
    requires s != ""
  {
    if position > |s| then (None, position)
    else
      var end := Find(s, if position == 0 then 1 else position);
      if end == |s| then (Some(s[position..]), |s| + 1) else (Some(s[position..end]), end + 2)
  }

  class SplitIter {
    const text: string
    var position: nat

    constructor (text: string)
      ensures this.text == text && position == 0
    {
      this.text := text;
      position := 0;
    }

    method Next() returns (r: Option<string>)
      requires text != ""
      modifies this
      ensures (r, position) == TokenAt(text, old(position))
    {
      if position > |text| {
        return None;
      }
      var before := position;
      var start := if position == 0 then 1 else position;
      var end := Find(text, start);
      if end == |text| {
        position := |text| + 1;
        return Some(text[before..]);
      }
      position := end + 2;
      return Some(text[before..end]);
    }
  }

  // ----- whole names -----

  const FUNCTION_PREFIX := "__patchouly__"

  /** The name of the stencil of a family for an assignment. */
  function StencilName(name: string, ins: seq<nat>, outs: seq<nat>, wide: bool): string {
    name + "__" + Join(ins) + "__" + Join(outs) + if wide then "__wide" else ""
  }

  /** The name of the function that the macro generates for it. */
  function FunctionName(name: string, ins: seq<nat>, outs: seq<nat>, wide: bool): string {
    FUNCTION_PREFIX + StencilName(name, ins, outs, wide)
  }

  datatype Parsed = Parsed(name: string, wide: bool, inputs: seq<Location>, outputs: seq<Location>)

  function ParsedName(s: string): Option<Parsed> {
    if s == "" then None
    else
      var (name, p1) := TokenAt(s, 0);
      var (ins, p2) := TokenAt(s, p1);
      var (outs, p3) := TokenAt(s, p2);
      if name == None || ins == None || outs == None then None
      else
        var (inputs, outputs) := (ParsedArgs(ins.value), ParsedArgs(outs.value));
        if inputs == None || outputs == None then None
        else Some(Parsed(name.value, TokenAt(s, p3).0 == Some("wide"), inputs.value, outputs.value))
  }

  /** `parse_name`. */
  method ParseName(symName: string) returns (r: Option<Parsed>)
    ensures r == ParsedName(symName)
  {
    hide ParsedArgs, Find;
    if symName == "" {
      return None;
    }
    var split := new SplitIter(symName);
    var name := split.Next();
    if name.None? {
      return None;
    }
    var ins := split.Next();
    if ins.None? {
      return None;
    }
    var outs := split.Next();
    if outs.None? {
      return None;
    }
    var inputs := ParseArgs(ins.value);
    if inputs.None? {
      return None;
    }
    var outputs := ParseArgs(outs.value);
    if outputs.None? {
      return None;
    }
    var wide := split.Next();
    return Some(Parsed(name.value, wide == Some("wide"), inputs.value, outputs.value));
  }

  /** What `extract` makes of a function symbol. */
  function ParsedFunction(symbol: string): Option<Parsed> {
    if FUNCTION_PREFIX <= symbol then ParsedName(symbol[|FUNCTION_PREFIX|..]) else None
  }

  // ----- names come back -----

  /** The family name ends where its first inner double underscore is: it is not empty, and has none in itself
      after its first character, also not together with the separator. */
  predicate NameOk(name: string) {
    name != "" && forall k :: 1 <= k < |name| ==> !Double(name + "__", k)
  }

  /** Names without double underscore and without underscore at the end, and the built-in names, are such names. */
  lemma OrdinaryNames(name: string)
    requires name != "" && (forall k :: 0 <= k < |name| ==> !Double(name, k)) && name[|name| - 1] != '_'
    ensures NameOk(name)
  {
    var s := name + "__";
    forall k | 1 <= k < |name| ensures !Double(s, k) {
      assert s[k] == name[k] && (k + 1 < |name| ==> s[k + 1] == name[k + 1]);
      assert !Double(name, k);
    }
  }

  lemma BuiltinNames()
    ensures NameOk("__empty") && NameOk("__move") && NameOk("__long_jump")
  {
  }

  /** A piece before a separator, but not at the very start. */
  lemma TokenIs(s: string, before: string, piece: string, after: string)
    requires before != "" && s == before + piece + "__" + after
    requires forall k :: 0 <= k < |piece| ==> !Double(piece + "__", k)
    ensures TokenAt(s, |before|) == (Some(piece), |before| + |piece| + 2)
  {
    var (b, end) := (|before|, |before| + |piece|);
    assert s[b..end + 2] == piece + "__";
    assert Double(s, end) by {
      assert s[end] == s[b..end + 2][|piece|] && s[end + 1] == s[b..end + 2][|piece| + 1];
    }
    forall k | b <= k < end ensures !Double(s, k) {
      assert s[k] == s[b..end + 2][k - b] && s[k + 1] == s[b..end + 2][k + 1 - b];
      assert !Double(piece + "__", k - b);
    }
    assert Find(s, b) == end;
    assert s[b..end] == piece;
  }

  /** The last piece. */
  lemma LastTokenIs(s: string, before: string, piece: string)
    requires before != "" && s == before + piece
    requires forall k :: 0 <= k < |piece| ==> !Double(piece, k)
    ensures TokenAt(s, |before|) == (Some(piece), |s| + 1)
  {
    var b := |before|;
    assert s[b..] == piece;
    forall k | b <= k < |s| ensures !Double(s, k) {
      assert s[k] == s[b..][k - b] && (k + 1 < |s| ==> s[k + 1] == s[b..][k + 1 - b]);
      assert !Double(piece, k - b);
    }
    assert Find(s, b) == |s|;
  }

  /** The first piece is the name exactly if the name is one that can be found again. */
  lemma FirstToken(s: string, name: string, after: string)
    requires s == name + "__" + after
    ensures TokenAt(s, 0).0 == Some(name) <==> NameOk(name)
    ensures NameOk(name) ==> TokenAt(s, 0).1 == |name| + 2
  {
    var t := name + "__";
    assert forall k :: 0 <= k < |t| ==> s[k] == t[k];
    forall k | 1 <= k < |name| ensures Double(s, k) <==> Double(t, k) {
    }
    assert Double(s, |name|);
    var end := Find(s, 1);
    if NameOk(name) {
      assert end == |name| && s[0..end] == name;
    } else if name != "" {
      var k :| 1 <= k < |name| && Double(t, k);
      assert end <= k;
    }
  }

  /** Operand lists have no double underscores, and do not end with an underscore. */
  lemma {:induction false} JoinShape(ts: seq<nat>)
    ensures ts == [] <==> Join(ts) == ""
    ensures ts != [] ==> IsDigit(Join(ts)[0]) && IsDigit(Join(ts)[|Join(ts)| - 1])
    ensures forall k :: 0 <= k < |Join(ts)| ==> !Double(Join(ts) + "__", k) && !Double(Join(ts), k)
  {
    if ts != [] {
      var n := |ts| - 1;
      var (before, last) := (Join(ts[..n]), Decimal(ts[n]));
      JoinShape(ts[..n]);
      DecimalRoundTrip(ts[n]);
      hide Decimal, DecimalValue;
      if n == 0 {
        DigitsShape("", last);
      } else {
        DigitsShape(before + "_", last);
        forall k | 0 <= k < |before| ensures !Double(Join(ts) + "__", k) && !Double(Join(ts), k) {
          assert !Double(before + "__", k);
        }
        assert IsDigit(Join(ts)[|before| + 1]);
      }
    }
  }

  lemma DigitsShape(before: string, digits: string)
    requires digits != "" && AllDigits(digits)
    ensures var all := before + digits;
      && IsDigit(all[|all| - 1])
      && forall k :: |before| <= k < |all| ==> IsDigit(all[k]) && !Double(all, k) && !Double(all + "__", k)
  {
    var all := before + digits;
    forall k | |before| <= k < |all| ensures IsDigit(all[k]) {
      assert all[k] == digits[k - |before|];
    }
  }

  /** Parsing the name of a generated stencil function gives its family, its operand locations and
      its width, exactly if the family name is one that can be found again. */
  lemma NameRoundTrip(name: string, ins: seq<nat>, outs: seq<nat>, wide: bool)
    requires AllU16(ins) && AllU16(outs)
    ensures ParsedFunction(FunctionName(name, ins, outs, wide))
        == Some(Parsed(name, wide, FromDigits(ins), FromDigits(outs)))
      <==> NameOk(name)
  {
    hide Join, ParsedArgs, TokenAt, NameOk;
    var s := StencilName(name, ins, outs, wide);
    assert FunctionName(name, ins, outs, wide)[|FUNCTION_PREFIX|..] == s;
    var suffix := if wide then "__wide" else "";
    var (i, o) := (Join(ins), Join(outs));
    assert s == name + "__" + (i + "__" + o + suffix);
    FirstToken(s, name, i + "__" + o + suffix);
    if NameOk(name) {
      Operands(s, name, ins, outs, wide);
      JoinRoundTrip(ins);
      JoinRoundTrip(outs);
    }
  }

  lemma Operands(s: string, name: string, ins: seq<nat>, outs: seq<nat>, wide: bool)
    requires s == StencilName(name, ins, outs, wide)
    ensures var (p1, p2) := (|name| + 2, |name| + |Join(ins)| + 4);
      && TokenAt(s, p1) == (Some(Join(ins)), p2)
      && TokenAt(s, p2).0 == Some(Join(outs))
      && (TokenAt(s, TokenAt(s, p2).1).0 == Some("wide") <==> wide)
  {
    hide Join, TokenAt, Double;
    var (i, o, suffix) := (Join(ins), Join(outs), if wide then "__wide" else "");
    JoinShape(ins);
    assert s == (name + "__") + i + "__" + (o + suffix);
    TokenIs(s, name + "__", i, o + suffix);
    var before := name + "__" + i + "__";
    assert s == before + o + suffix;
    LastOperands(s, before, outs, wide);
  }

  lemma LastOperands(s: string, before: string, outs: seq<nat>, wide: bool)
    requires before != "" && s == before + Join(outs) + if wide then "__wide" else ""
    ensures TokenAt(s, |before|).0 == Some(Join(outs))
    ensures TokenAt(s, TokenAt(s, |before|).1).0 == Some("wide") <==> wide
  {
    var o := Join(outs);
    JoinShape(outs);
    hide Join, TokenAt;
    if wide {
      assert s == before + o + "__" + "wide";
      TokenIs(s, before, o, "wide");
      assert s == (before + o + "__") + "wide";
      LastTokenIs(s, before + o + "__", "wide");
    } else {
      assert s == before + o;
      LastTokenIs(s, before, o);
      PastEnd(s);
    }
  }

  lemma PastEnd(s: string)
    requires s != ""
    ensures TokenAt(s, |s| + 1).0 == None
  {
  }

  /** The symbols of one family differ, whatever its name is. */
  lemma StencilNamesDiffer(name: string, a: seq<nat>, b: seq<nat>, v: bool, c: seq<nat>, d: seq<nat>, w: bool)
    requires AllU16(a) && AllU16(b) && AllU16(c) && AllU16(d)
    requires FunctionName(name, a, b, v) == FunctionName(name, c, d, w)
    ensures a == c && b == d && v == w
  {
    hide Join, TokenAt, ParsedArgs, StencilName, ParsePieces;
    var s := StencilName(name, a, b, v);
    assert s == FunctionName(name, a, b, v)[|FUNCTION_PREFIX|..];
    assert StencilName(name, c, d, w) == FunctionName(name, c, d, w)[|FUNCTION_PREFIX|..];
    Operands(s, name, a, b, v);
    Operands(s, name, c, d, w);
    SameJoin(a, c);
    SameJoin(b, d);
  }

  lemma SameJoin(a: seq<nat>, b: seq<nat>)
    requires AllU16(a) && AllU16(b) && Join(a) == Join(b)
    ensures a == b
  {
    hide Join, ParsedArgs, ParsePieces;
    JoinRoundTrip(a);
    JoinRoundTrip(b);
    assert |a| == |FromDigits(a)| == |b|;
    forall i | 0 <= i < |a| ensures a[i] == b[i] {
      assert FromDigits(a)[i] == FromDigits(b)[i];
    }
  }

  // ----- names that the macro accepts -----

  predicate HasDouble(name: string) {
    exists k :: 0 <= k < |name| && Double(name, k)
  }

  /** The macro refuses names with a double underscore, except the built-in ones. */
  predicate MacroAccepts(name: string) {
    name != "" && (HasDouble(name) ==> name in {"__empty", "__move", "__long_jump"})
  }

  /** A name of at least two characters that ends with an underscore. */
  predicate Trailing(name: string) {
    |name| >= 2 && name[|name| - 1] == '_'
  }

  /** Of the names that the macro accepts, those are found again that do not end with an underscore. */
  lemma AcceptedNames(name: string)
    requires MacroAccepts(name)
    ensures NameOk(name) <==> !Trailing(name)
  {
    if HasDouble(name) {
      BuiltinNames();
    } else if !Trailing(name) && |name| >= 2 {
      OrdinaryNames(name);
    } else if Trailing(name) {
      assert Double(name + "__", |name| - 1);
    }
  }

  /** The pieces of a text that starts with an underscore: the first one is empty. */
  lemma {:induction false} FirstPiece(text: string)
    requires text != "" && text[0] == '_'
    ensures |Pieces(text)| >= 2 && Pieces(text)[0] == ""
  {
    var init := text[..|text| - 1];
    if init != "" {
      FirstPiece(init);
    } else {
      assert Pieces(init) == [""];
    }
  }

  lemma LeadingUnderscore(text: string)
    requires text != "" && text[0] == '_'
    ensures ParsedArgs(text) == None
  {
    hide Pieces;
    FirstPiece(text);
    var pieces := Pieces(text);
    assert pieces[..1] == [""] && pieces[..1][..0] == [];
    assert ParseArg("") == None;
    FailsOnce(pieces, 1);
  }

  /** The separator is found one character early, so that the operands start with an underscore. */
  lemma SkewedToken(s: string, before: string, operands: string, after: string)
    requires before != "" && s == before + ("_" + operands) + "__" + after
    requires operands != "" && IsDigit(operands[0]) && forall k :: 0 <= k < |operands| ==> !Double(operands + "__", k)
    ensures TokenAt(s, |before|).0 == Some("_" + operands) && ParsedArgs("_" + operands) == None
  {
    SkewedShape(operands);
    TokenIs(s, before, "_" + operands, after);
    LeadingUnderscore("_" + operands);
  }

  lemma SkewedShape(operands: string)
    requires operands != "" && IsDigit(operands[0]) && forall k :: 0 <= k < |operands| ==> !Double(operands + "__", k)
    ensures forall k :: 0 <= k <= |operands| ==> !Double("_" + operands + "__", k)
    ensures forall k :: 0 <= k <= |operands| ==> !Double("_" + operands, k)
  {
    var (t, u) := (operands + "__", "_" + operands + "__");
    forall k | 0 <= k <= |operands| ensures !Double(u, k) && !Double("_" + operands, k) {
      assert u[1..] == t;
      if k > 0 {
        assert u[k] == t[k - 1] && u[k + 1] == t[k];
        assert !Double(t, k - 1);
      }
    }
  }

  lemma SkewedLast(s: string, before: string, operands: string)
    requires before != "" && s == before + ("_" + operands)
    requires operands != "" && IsDigit(operands[0]) && forall k :: 0 <= k < |operands| ==> !Double(operands + "__", k)
    ensures TokenAt(s, |before|).0 == Some("_" + operands) && ParsedArgs("_" + operands) == None
  {
    SkewedShape(operands);
    LastTokenIs(s, before, "_" + operands);
    LeadingUnderscore("_" + operands);
  }

  /** Without operands, the extra underscore ends up in the outputs, or in front of the width. */
  lemma NoOperands(s: string, short: string, wide: bool)
    requires short != "" && s == short + "_____" + if wide then "__wide" else ""
    ensures TokenAt(s, |short| + 2) == (Some(""), |short| + 4) && ParsedArgs("") == Some([])
    ensures if wide then
        TokenAt(s, |short| + 4) == (Some(""), |short| + 6) && TokenAt(s, |short| + 6).0 == Some("_wide")
      else
        TokenAt(s, |short| + 4).0 == Some("_") && ParsedArgs("_") == None
  {
    hide TokenAt;
    var rest := if wide then "___wide" else "_";
    assert s == (short + "__") + "" + "__" + rest;
    TokenIs(s, short + "__", "", rest);
    var before := short + "____";
    if wide {
      assert s == before + "" + "__" + "_wide";
      TokenIs(s, before, "", "_wide");
      assert s == (before + "__") + "_wide";
      LastTokenIs(s, before + "__", "_wide");
    } else {
      assert s == before + "_";
      LastTokenIs(s, before, "_");
      LeadingUnderscore("_");
    }
  }

  /** Parsing goes on behind the name `short`, which ends at `|short| + 2`. */
  predicate Named(s: string, short: string) {
    short != "" && s != "" && TokenAt(s, 0) == (Some(short), |short| + 2)
  }

  lemma SkewedInputs(s: string, short: string, ins: seq<nat>, after: string)
    requires Named(s, short) && ins != [] && s == short + "___" + Join(ins) + "__" + after
    ensures ParsedName(s) == None
  {
    hide TokenAt, Join, ParsedArgs;
    JoinShape(ins);
    assert s == (short + "__") + ("_" + Join(ins)) + "__" + after;
    SkewedToken(s, short + "__", Join(ins), after);
  }

  lemma SkewedOutputs(s: string, short: string, outs: seq<nat>, wide: bool)
    requires Named(s, short) && outs != []
    requires s == short + "_____" + Join(outs) + if wide then "__wide" else ""
    ensures ParsedName(s) == None
  {
    hide TokenAt, Join, ParsedArgs;
    JoinShape(outs);
    var (o, before) := (Join(outs), short + "____");
    var rest := "_" + o + if wide then "__wide" else "";
    assert s == (short + "__") + "" + "__" + rest;
    TokenIs(s, short + "__", "", rest);
    if wide {
      assert s == before + ("_" + o) + "__" + "wide";
      SkewedToken(s, before, o, "wide");
    } else {
      assert s == before + ("_" + o);
      SkewedLast(s, before, o);
    }
  }

  lemma SkewedWidth(s: string, short: string, wide: bool)
    requires Named(s, short) && s == short + "_____" + if wide then "__wide" else ""
    ensures ParsedName(s) == if wide then Some(Parsed(short, false, [], [])) else None
  {
    hide TokenAt, ParsedArgs;
    NoOperands(s, short, wide);
  }

  /** What becomes of a name that ends with an underscore: its symbols are not parsed, except that the wide stencil
      without operands is taken for the narrow stencil of the family without the underscore. */
  lemma TrailingName(name: string, ins: seq<nat>, outs: seq<nat>, wide: bool)
    requires MacroAccepts(name) && Trailing(name)
    ensures ParsedFunction(FunctionName(name, ins, outs, wide)) ==
      if ins == [] && outs == [] && wide then Some(Parsed(name[..|name| - 1], false, [], [])) else None
  {
    hide Join, TokenAt, MacroAccepts, ParsedName, NameOk;
    var (short, s) := (name[..|name| - 1], StencilName(name, ins, outs, wide));
    ShortName(name);
    var (i, o, suffix) := (Join(ins), Join(outs), if wide then "__wide" else "");
    assert FunctionName(name, ins, outs, wide)[|FUNCTION_PREFIX|..] == s;
    assert name == short + "_";
    var after := "_" + i + "__" + o + suffix;
    assert s == short + "__" + after;
    FirstToken(s, short, after);
    if ins != [] {
      assert s == short + "___" + i + "__" + (o + suffix);
      SkewedInputs(s, short, ins, o + suffix);
    } else {
      NoJoin();
      assert s == short + "_____" + o + suffix;
      if outs != [] {
        SkewedOutputs(s, short, outs, wide);
      } else {
        assert s == short + "_____" + suffix;
        SkewedWidth(s, short, wide);
      }
    }
  }

  lemma NoJoin()
    ensures Join([]) == ""
  {
  }

  lemma ShortName(name: string)
    requires MacroAccepts(name) && Trailing(name)
    ensures var short := name[..|name| - 1]; short != "" && NameOk(short)
  {
    var short := name[..|name| - 1];
    BuiltinsDoNotTrail();
    assert !HasDouble(name);
    assert !Double(name, |name| - 2);
    forall k | 0 <= k < |short| ensures !Double(short, k) {
      assert !Double(name, k);
    }
    OrdinaryNames(short);
  }

  lemma BuiltinsDoNotTrail()
    ensures !Trailing("__empty") && !Trailing("__move") && !Trailing("__long_jump")
  {
  }

  /** An example: the wide stencil of `ret_` reads as the narrow one of `ret`. */
  lemma WideRetIsTakenForNarrow()
    ensures MacroAccepts("ret_") && !NameOk("ret_")
    ensures ParsedFunction(FunctionName("ret_", [], [], true)) == Some(Parsed("ret", false, [], []))
  {
    hide ParsedFunction, FunctionName, NameOk;
    assert !HasDouble("ret_");
    AcceptedNames("ret_");
    TrailingName("ret_", [], [], true);
    assert "ret_"[..3] == "ret";
  }
}
