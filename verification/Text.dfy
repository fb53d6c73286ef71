/** Decimal rendering and line-structured text. */
module Text {

  function PowTen(e: nat): nat {
    if e == 0 then 1 else 10 * PowTen(e - 1)
  }

  function Digit(d: nat): char
    requires d < 10
  {
    '0' + d as char
  }

  /** Decimal rendering padded with zeros to the given width. */
  function Padded(n: nat, width: nat): (s: string)
    ensures |s| == width
  {
    if width == 0 then "" else Padded(n / 10, width - 1) + [Digit(n % 10)]
  }

  lemma {:induction false} PaddedInjective(m: nat, n: nat, width: nat)
    requires Padded(m, width) == Padded(n, width)
    requires m < PowTen(width) && n < PowTen(width)
    ensures m == n
  {
    if width > 0 {
      var a, b := Padded(m, width), Padded(n, width);
      assert a[width - 1] == b[width - 1];
      assert Padded(m / 10, width - 1) == a[..width - 1] && Padded(n / 10, width - 1) == b[..width - 1];
      PaddedInjective(m / 10, n / 10, width - 1);
    }
  }

  predicate IsDigit(c: char) {
    '0' <= c <= '9'
  }

  function Decimal(n: nat): (s: string)
    ensures s != [] && forall i :: 0 <= i < |s| ==> IsDigit(s[i])
  {
    if n < 10 then [Digit(n)] else Decimal(n / 10) + [Digit(n % 10)]
  }

  lemma {:induction false} DecimalHead(n: nat)
    requires n > 0
    ensures Decimal(n)[0] != '0'
  {
    if n >= 10 {
      DecimalHead(n / 10);
    }
  }

  lemma {:induction false} DecimalInjective(m: nat, n: nat)
    requires Decimal(m) == Decimal(n)
    ensures m == n
  {
    var a, b := Decimal(m), Decimal(n);
    assert a[|a| - 1] == b[|b| - 1];
    assert (m < 10 <==> |a| == 1) && (n < 10 <==> |b| == 1);
    if m >= 10 {
      assert Decimal(m / 10) == a[..|a| - 1] && Decimal(n / 10) == b[..|b| - 1];
      DecimalInjective(m / 10, n / 10);
    }
  }

  /** Decimal rendering with at least two digits. */
  function TwoDigits(n: nat): (s: string)
    ensures s != [] && forall i :: 0 <= i < |s| ==> IsDigit(s[i])
  {
    if n < 10 then "0" + Decimal(n) else Decimal(n)
  }

  lemma TwoDigitsInjective(m: nat, n: nat)
    requires TwoDigits(m) == TwoDigits(n)
    ensures m == n
  {
    if m < 10 && n < 10 {
      assert Decimal(m) == TwoDigits(m)[1..] && Decimal(n) == TwoDigits(n)[1..];
      DecimalInjective(m, n);
    } else if m >= 10 && n >= 10 {
      DecimalInjective(m, n);
    } else {
      DecimalHead(if m >= 10 then m else n);
    }
  }

  ghost predicate NewlineFree(s: string) {
    forall i :: 0 <= i < |s| ==> s[i] != '\n'
  }

  /** One line per label and value. */
  function Lines(labels: seq<string>, values: seq<string>): string
    requires |labels| == |values|
  {
    if labels == [] then ""
    else labels[0] + values[0] + "\n" + Lines(labels[1..], values[1..])
  }

  ghost predicate AllNewlineFree(ss: seq<string>) {
    forall i :: 0 <= i < |ss| ==> NewlineFree(ss[i])
  }

  predicate OccursAt(s: string, t: string, i: nat) {
    i + |t| <= |s| && s[i..i + |t|] == t
  }

  ghost predicate Contains(s: string, t: string) {
    exists i :: OccursAt(s, t, i)
  }

  /** A label on one line that ends at its only equals sign. */
  ghost predicate IsKey(key: string) {
    && key != "" && NewlineFree(key)
    && forall i :: 0 <= i < |key| ==> (key[i] == '=' <==> i == |key| - 1)
  }

  /** Lines that can be told apart: after the header, every label is a key and no two are the same. */
  ghost predicate KeyLabels(labels: seq<string>) {
    && AllNewlineFree(labels)
    && (forall i :: 1 <= i < |labels| ==> IsKey(labels[i]))
    && forall i, j :: 1 <= i < j < |labels| ==> labels[i] != labels[j]
  }

  /** No value holds a newline that is followed by a label. */
  ghost predicate SpellsNoLabel(labels: seq<string>, values: seq<string>) {
    forall i, k :: 0 <= i < |values| && 1 <= k < |labels| ==> !Contains(values[i], "\n" + labels[k])
  }

  /** Two keys at the start of one text are the same. */
  lemma KeysAgree(k: string, l: string, text: string)
    requires IsKey(k) && IsKey(l) && k <= text && l <= text
    ensures k == l
  {
    assert text[|k| - 1] == '=' && text[|l| - 1] == '=';
    assert |k| == |l|;
    assert k == text[..|k|] && l == text[..|l|];
  }

  /** A newline and a label inside one line with its end: it lies in the value. */
  lemma OccursInValue(head: string, value: string, rest: string, key: string, p: nat)
    requires NewlineFree(head) && NewlineFree(key)
    requires OccursAt(head + value + "\n" + rest, "\n" + key, p) && p < |head| + |value|
    ensures Contains(value, "\n" + key)
  {
    var text, mark := head + value + "\n" + rest, "\n" + key;
    assert forall i :: 0 <= i < |mark| ==> text[p + i] == text[p..p + |mark|][i] == mark[i];
    assert text[p] == '\n';
    assert p >= |head|;
    assert text[|head| + |value|] == '\n';
    assert forall i :: 1 <= i < |mark| ==> mark[i] == key[i - 1] != '\n';
    assert p + |mark| <= |head| + |value|;
    var q := p - |head|;
    assert value[q..q + |mark|] == text[p..p + |mark|];
    assert OccursAt(value, mark, q);
  }

  /** If no value spells a label, a newline and that label occur in the lines only where the label stands. */
  lemma {:induction false} LabelOccursNot(labels: seq<string>, values: seq<string>, key: string, p: nat)
    requires |labels| == |values| && KeyLabels(labels) && IsKey(key)
    requires forall i :: 1 <= i < |labels| ==> labels[i] != key
    requires forall i :: 0 <= i < |values| ==> !Contains(values[i], "\n" + key)
    ensures !OccursAt(Lines(labels, values), "\n" + key, p)
    decreases |labels|
  {
    if labels != [] && OccursAt(Lines(labels, values), "\n" + key, p) {
      var rest := Lines(labels[1..], values[1..]);
      var end := |labels[0]| + |values[0]|;
      if p < end {
        OccursInValue(labels[0], values[0], rest, key, p);
      } else if p == end {
        AfterNewline(labels[0] + values[0], rest, key);
        assert labels[1..] != [];
        FirstLabel(labels[1..], values[1..]);
        KeysAgree(key, labels[1], rest);
      } else {
        OccursLater(labels[0] + values[0], rest, "\n" + key, p);
        LabelOccursNot(labels[1..], values[1..], key, p - end - 1);
      }
    }
  }

  lemma AfterNewline(line: string, rest: string, key: string)
    requires OccursAt(line + "\n" + rest, "\n" + key, |line|)
    ensures key <= rest
  {
    var text, mark := line + "\n" + rest, "\n" + key;
    assert text[|line|..|line| + |mark|][1..] == rest[..|key|];
    assert mark[1..] == key;
  }

  lemma OccursLater(line: string, rest: string, mark: string, p: nat)
    requires OccursAt(line + "\n" + rest, mark, p) && p > |line|
    ensures OccursAt(rest, mark, p - |line| - 1)
  {
    var q := p - |line| - 1;
    assert (line + "\n" + rest)[p..p + |mark|] == rest[q..q + |mark|];
  }

  lemma FirstLabel(labels: seq<string>, values: seq<string>)
    requires |labels| == |values| > 0
    ensures labels[0] <= Lines(labels, values)
  {
  }

  /** Two readings of one text: the key after the second's first line is in the first's line, or later. */
  lemma OtherReading(head: string, a: string, x: string, b: string, y: string, key: string)
    requires NewlineFree(head) && NewlineFree(key) && key <= y
    requires head + a + "\n" + x == head + b + "\n" + y
    ensures |b| < |a| ==> Contains(a, "\n" + key)
    ensures |a| < |b| ==> OccursAt(x, "\n" + key, |b| - |a| - 1)
  {
    hide Contains, NewlineFree;
    KeyAfterNewline(head + b, y, key);
    if |b| < |a| {
      OccursInValue(head, a, x, key, |head| + |b|);
    } else if |a| < |b| {
      OccursLater(head + a, x, "\n" + key, |head| + |b|);
    }
  }

  lemma KeyAfterNewline(line: string, rest: string, key: string)
    requires key <= rest
    ensures OccursAt(line + "\n" + rest, "\n" + key, |line|)
  {
    var mark := "\n" + key;
    assert (line + "\n" + rest)[|line|..|line| + |mark|] == "\n" + rest[..|key|];
  }

  /** Values that spell no label are the only values with their text. */
  lemma {:induction false} LinesIdentify(labels: seq<string>, v: seq<string>, w: seq<string>)
    requires |labels| == |v| == |w| && KeyLabels(labels) && SpellsNoLabel(labels, v)
    requires Lines(labels, v) == Lines(labels, w)
    ensures v == w
  {
    if labels != [] {
      var l, text := labels[0], Lines(labels, v);
      var x, y := Lines(labels[1..], v[1..]), Lines(labels[1..], w[1..]);
      assert text == l + v[0] + "\n" + x == l + w[0] + "\n" + y;
      SameFirstLine(labels, v, w);
      assert v[0] == text[|l|..|l| + |v[0]|] == text[|l|..|l| + |w[0]|] == w[0];
      assert x == text[|l| + |v[0]| + 1..] && y == text[|l| + |w[0]| + 1..];
      LinesIdentify(labels[1..], v[1..], w[1..]);
      assert v == [v[0]] + v[1..] && w == [w[0]] + w[1..];
    }
  }

  lemma FirstOf(labels: seq<string>, values: seq<string>)
    requires |labels| == |values| > 0
    ensures Lines(labels, values) == labels[0] + values[0] + "\n" + Lines(labels[1..], values[1..])
    ensures |labels| == 1 ==> |Lines(labels, values)| == |labels[0]| + |values[0]| + 1
  {
  }

  lemma SameFirstLine(labels: seq<string>, v: seq<string>, w: seq<string>)
    requires |labels| == |v| == |w| > 0 && KeyLabels(labels) && SpellsNoLabel(labels, v)
    requires Lines(labels, v) == Lines(labels, w)
    ensures |v[0]| == |w[0]|
  {
    hide KeyLabels, SpellsNoLabel, Contains, OccursAt, Lines;
    FirstOf(labels, v);
    FirstOf(labels, w);
    if |labels| > 1 {
      var x, y := Lines(labels[1..], v[1..]), Lines(labels[1..], w[1..]);
      TailKeys(labels, v);
      FirstLabel(labels[1..], w[1..]);
      OtherReading(labels[0], v[0], x, w[0], y, labels[1]);
      if |v[0]| < |w[0]| {
        LabelOccursNot(labels[1..], v[1..], labels[1], |w[0]| - |v[0]| - 1);
      }
    }
  }

  lemma TailKeys(labels: seq<string>, values: seq<string>)
    requires |labels| == |values| > 1 && KeyLabels(labels) && SpellsNoLabel(labels, values)
    ensures NewlineFree(labels[0]) && IsKey(labels[1]) && KeyLabels(labels[1..])
    ensures forall i :: 1 <= i < |labels[1..]| ==> labels[1..][i] != labels[1]
    ensures forall i :: 0 <= i < |values| ==> !Contains(values[i], "\n" + labels[1])
  {
    hide Contains, IsKey, NewlineFree;
  }

  /** The text from line k on, after the lines before it. */
  lemma {:induction false} LinesSplit(labels: seq<string>, values: seq<string>, k: nat)
    requires |labels| == |values| && k <= |labels|
    ensures Lines(labels, values) == Lines(labels[..k], values[..k]) + Lines(labels[k..], values[k..])
  {
    if k == 0 {
      assert labels[0..] == labels && values[0..] == values;
    } else {
      LinesSplit(labels[1..], values[1..], k - 1);
      assert labels[1..][..k - 1] == labels[..k][1..] && values[1..][..k - 1] == values[..k][1..];
      assert labels[1..][k - 1..] == labels[k..] && values[1..][k - 1..] == values[k..];
    }
  }
}
