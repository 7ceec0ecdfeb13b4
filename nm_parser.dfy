/** The classifier for one line of `nm -S` output (`parse_sym_line`): strip the
    line, split it at single spaces, and turn a four-field line
    `address size type name` into a leaf node according to its type letter. */
module NmParser {
  import opened Wrappers
  import opened Nodes

  /** The characters `l.strip(" \t\n")` removes. */
  predicate IsStripChar(c: char) {
    c == ' ' || c == '\t' || c == '\n'
  }

  /** The first index at or after `i` that does not hold a strip character. */
  function LeftCut(s: string, i: nat): (k: nat)
    requires i <= |s|
    ensures i <= k <= |s| && (k == |s| || !IsStripChar(s[k]))
    ensures forall m :: i <= m < k ==> IsStripChar(s[m])
    decreases |s| - i
  {
    if i < |s| && IsStripChar(s[i]) then LeftCut(s, i + 1) else i
  }

  /** The end of `s[lo..j]` once the strip characters at its end are cut off. */
  function RightCut(s: string, lo: nat, j: nat): (k: nat)
    requires lo <= j <= |s|
    ensures lo <= k <= j && (k == lo || !IsStripChar(s[k - 1]))
    ensures forall m :: k <= m < j ==> IsStripChar(s[m])
    decreases j
  {
    if j > lo && IsStripChar(s[j - 1]) then RightCut(s, lo, j - 1) else j
  }

  /** `s.strip(" \t\n")`: the slice of `s` left once the spaces, tabs and newlines
      at either end are cut off; none is left at either end of it. */
  function Strip(s: string): (r: string)
    ensures exists i, j :: 0 <= i <= j <= |s| && r == s[i..j] &&
                           (forall k :: 0 <= k < i ==> IsStripChar(s[k])) &&
                           (forall k :: j <= k < |s| ==> IsStripChar(s[k]))
    ensures r == [] || (!IsStripChar(r[0]) && !IsStripChar(r[|r| - 1]))
  {
    var i := LeftCut(s, 0);
    var j := RightCut(s, i, |s|);
    s[i..j]
  }

  /** `s.split(" ")`: the pieces between single spaces, so two adjacent spaces
      give an empty field and the empty string gives one empty field. */
  function Split(s: string): (fields: seq<string>)
    ensures |fields| >= 1
    ensures forall f :: f in fields ==> ' ' !in f
  {
    if s == [] then [""]
    else if s[0] == ' ' then [""] + Split(s[1..])
    else
      var rest := Split(s[1..]);
      [[s[0]] + rest[0]] + rest[1..]
  }

  /** `" ".join(fields)`, the inverse of `Split`. */
  function Join(fields: seq<string>): string
    requires |fields| >= 1
  {
    if |fields| == 1 then fields[0] else fields[0] + " " + Join(fields[1..])
  }

  /** Splitting loses nothing: joining the fields back gives the line. */
  lemma {:induction false} JoinSplit(s: string)
    ensures Join(Split(s)) == s
    decreases |s|
  {
    if s != [] {
      JoinSplit(s[1..]);
      var rest := Split(s[1..]);
      if s[0] == ' ' {
        assert ([""] + rest)[1..] == rest;
      } else {
        var fields := [[s[0]] + rest[0]] + rest[1..];
        if |rest| > 1 {
          assert fields[1..] == rest[1..];
        }
      }
    }
  }

  /** Fields without spaces survive a join followed by a split. */
  lemma {:induction false} SplitJoin(fields: seq<string>)
    requires |fields| >= 1 && forall f :: f in fields ==> ' ' !in f
    ensures Split(Join(fields)) == fields
    decreases |fields|, |fields[0]|
  {
    if fields[0] == [] {
      if |fields| > 1 {
        assert Join(fields) == " " + Join(fields[1..]);
        SplitJoin(fields[1..]);
        assert [""] + fields[1..] == fields;
      }
    } else {
      var f := fields[0];
      var fields' := [f[1..]] + fields[1..];
      assert fields'[1..] == fields[1..];
      assert ' ' !in f && f == [f[0]] + f[1..];
      assert forall g :: g in fields' ==> ' ' !in g;
      SplitJoin(fields');
      var text := Join(fields');
      assert Join(fields) == [f[0]] + text;
      assert ([f[0]] + text)[1..] == text;
      assert [f] + fields[1..] == fields;
    }
  }

  /** The value of one hexadecimal digit, either case. */
  function HexDigitValue(c: char): (v: int)
    ensures -1 <= v < 16
    ensures v >= 0 <==> ('0' <= c <= '9' || 'a' <= c <= 'f' || 'A' <= c <= 'F')
  {
    if '0' <= c <= '9' then c as int - '0' as int
    else if 'a' <= c <= 'f' then c as int - 'a' as int + 10
    else if 'A' <= c <= 'F' then c as int - 'A' as int + 10
    else -1
  }

  predicate IsHexDigit(c: char) {
    HexDigitValue(c) >= 0
  }

  /** The value of a string of hexadecimal digits (most significant first). */
  function HexValue(s: string): nat
    requires forall i :: 0 <= i < |s| ==> IsHexDigit(s[i])
  {
    if s == [] then 0
    else
      assert IsHexDigit(s[|s| - 1]);
      16 * HexValue(s[..|s| - 1]) + HexDigitValue(s[|s| - 1])
  }

  /** `int(s, 16)` for the digit strings `nm -S` prints: a value when `s` is a
      non-empty run of hexadecimal digits, and `None` (Python's `ValueError`)
      otherwise. */
  function ParseHex(s: string): (r: Option<nat>)
    ensures r.Some? <==> s != [] && forall i :: 0 <= i < |s| ==> IsHexDigit(s[i])
  {
    if s != [] && forall i :: 0 <= i < |s| ==> IsHexDigit(s[i]) then Some(HexValue(s)) else None
  }

  /** The lower-case hexadecimal digits of `n`, without leading zeros. */
  function HexString(n: nat): (s: string)
    ensures s != [] && forall i :: 0 <= i < |s| ==> IsHexDigit(s[i])
    ensures HexValue(s) == n
  {
    var d := "0123456789abcdef"[n % 16];
    assert HexDigitValue(d) == n % 16;
    if n < 16 then [d]
    else
      var s := HexString(n / 16) + [d];
      assert s[..|s| - 1] == HexString(n / 16);
      s
  }

  /** Leading zeros, as `nm` pads its sizes with, do not change the value. */
  lemma {:induction false} LeadingZeros(z: nat, s: string)
    requires forall i :: 0 <= i < |s| ==> IsHexDigit(s[i])
    ensures var p := seq(z, _ => '0') + s;
            (forall i :: 0 <= i < |p| ==> IsHexDigit(p[i])) && HexValue(p) == HexValue(s)
    decreases |s|
  {
    var p := seq(z, _ => '0') + s;
    if s == [] {
      assert p == seq(z, _ => '0');
      ZerosValue(z);
    } else {
      LeadingZeros(z, s[..|s| - 1]);
      assert p[..|p| - 1] == seq(z, _ => '0') + s[..|s| - 1];
    }
  }

  lemma {:induction false} ZerosValue(z: nat)
    ensures HexValue(seq(z, _ => '0')) == 0
  {
    if z > 0 {
      assert seq(z, _ => '0')[..z - 1] == seq(z - 1, _ => '0');
      ZerosValue(z - 1);
    }
  }

  /** The size as padded to the width `nm -S` prints it with (at least `width`
      digits). */
  function PaddedHex(n: nat, width: nat): string {
    var s := HexString(n);
    if |s| >= width then s else seq(width - |s|, _ => '0') + s
  }

  lemma PaddedHexParses(n: nat, width: nat)
    ensures ParseHex(PaddedHex(n, width)) == Some(n)
  {
    var s := HexString(n);
    if |s| < width {
      LeadingZeros(width - |s|, s);
    }
  }

  /** What `parse_sym_line` gives back: no node (`None`), a node, or the
      `ValueError` that `int(fields[1], 16)` raises on a size that is not
      hexadecimal. */
  datatype SymLine = NoSymbol | Symbol(node: Node) | SizeError

  /** `parse_sym_line(l)`. */
  function ParseSymLine(l: string): (r: SymLine)
    ensures var fields := Split(Strip(l));
            (|fields| != 4 ==> r == NoSymbol) &&
            (|fields| == 4 ==> (r == SizeError <==> ParseHex(fields[1]).None?)) &&
            (r.Symbol? ==> |fields| == 4 && r.node.Leaf? && r.node.name == fields[3] &&
                           r.node.Size() == ParseHex(fields[1]).value)
  {
    var fields := Split(Strip(l));
    if |fields| != 4 then NoSymbol
    else
      match ParseHex(fields[1])
      case None => SizeError
      case Some(size) =>
        var stype, name := fields[2], fields[3];
        if stype == "T" || stype == "t" then Symbol(FunctionNode(name, size))
        else if stype == "D" || stype == "d" then Symbol(VariableNode(name, size))
        else if stype == "B" || stype == "b" then Symbol(VariableNode(name, size))
        else if stype == "R" || stype == "r" then Symbol(ConstantNode(name, size))
        else NoSymbol
  }

  /** The node kind a type letter stands for: text is code, initialised and
      uninitialised data are variables, read-only data is constants. */
  function LetterKind(letter: char): Option<LeafKind> {
    match letter
    case 'T' | 't' => Some(Function)
    case 'D' | 'd' | 'B' | 'b' => Some(Variable)
    case 'R' | 'r' => Some(Constant)
    case _ => None
  }

  /** The node a size and a kind make: the size lands in the kind's one field. */
  function KindNode(name: string, kind: LeafKind, size: nat): Node {
    Leaf(name, kind,
         if kind == Function then size else 0,
         if kind == Constant then size else 0,
         if kind == Variable then size else 0)
  }

  /** On a four-field line with a hexadecimal size, the type field alone decides:
      a node exactly when it is one of the letters `TtDdBbRr`, of that letter's
      kind, carrying the size and the name. */
  lemma ClassifiedByLetter(l: string)
    requires var fields := Split(Strip(l)); |fields| == 4 && ParseHex(fields[1]).Some?
    ensures var fields := Split(Strip(l));
            var letter := fields[2];
            var r := ParseSymLine(l);
            if |letter| == 1 && LetterKind(letter[0]).Some?
            then r == Symbol(KindNode(fields[3], LetterKind(letter[0]).value, ParseHex(fields[1]).value))
            else r == NoSymbol
  {
    var letter := Split(Strip(l))[2];
    if |letter| == 1 {
      assert letter == [letter[0]];
    }
  }

  /** A field that `strip` and `split` leave whole. */
  predicate IsWord(w: string) {
    w != [] && forall i :: 0 <= i < |w| ==> !IsStripChar(w[i])
  }

  /** One line as `nm -S` writes it: address, size, type letter and name. */
  function NmLine(address: string, size: string, letter: char, name: string): string {
    address + " " + size + " " + [letter] + " " + name + "\n"
  }

  /** Reading back a well-formed `nm` line: the size is the hexadecimal value of
      its field, the name is the last field, and the letter alone decides the
      kind, with an unknown letter giving no node. */
  lemma ParseNmLine(address: string, size: nat, width: nat, letter: char, name: string)
    requires IsWord(address) && IsWord(name) && !IsStripChar(letter)
    ensures var r := ParseSymLine(NmLine(address, PaddedHex(size, width), letter, name));
            match LetterKind(letter)
            case None => r == NoSymbol
            case Some(kind) => r == Symbol(KindNode(name, kind, size))
  {
    var hex := PaddedHex(size, width);
    PaddedHexParses(size, width);
    NmLineFields(address, hex, letter, name);
    ClassifiedByLetter(NmLine(address, hex, letter, name));
    assert [letter][0] == letter;
  }

  /** The four fields of an `nm` line come back out of `strip` and `split`. */
  lemma NmLineFields(address: string, hex: string, letter: char, name: string)
    requires IsWord(address) && IsWord(name) && !IsStripChar(letter)
    requires ParseHex(hex).Some?
    ensures Split(Strip(NmLine(address, hex, letter, name))) == [address, hex, [letter], name]
  {
    var body := address + " " + hex + " " + [letter] + " " + name;
    assert NmLine(address, hex, letter, name) == body + "\n";
    StripNewline(body);
    var fields := [address, hex, [letter], name];
    assert Join(fields[1..][1..]) == [letter] + " " + name by {
      assert fields[1..][1..] == [[letter], name];
      assert fields[1..][1..][1..] == [name];
    }
    assert Join(fields[1..]) == hex + " " + [letter] + " " + name by {
      assert fields[1..] == [hex, [letter], name];
    }
    assert Join(fields) == body;
    assert forall f :: f in fields ==> ' ' !in f by {
      assert ' ' !in address && ' ' !in name && ' ' !in hex;
    }
    SplitJoin(fields);
  }

  lemma StripNewline(body: string)
    requires body != [] && !IsStripChar(body[0]) && !IsStripChar(body[|body| - 1])
    ensures Strip(body + "\n") == body
  {
    var l := body + "\n";
    assert LeftCut(l, 0) == 0;
    assert RightCut(l, 0, |body|) == |body|;
    assert RightCut(l, 0, |l|) == |body|;
    assert l[0..|body|] == body;
  }
}
