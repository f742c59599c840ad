/** String facts the remote format relies on: `trim()` blankness and chunk file names. */
module Text {

  /** The characters `String.prototype.trim` removes: WhiteSpace and LineTerminator. */
  predicate IsWhitespace(c: char) {
    || '\U{9}' <= c <= '\U{D}'          // tab, line feed, vertical tab, form feed, carriage return
    || c == ' ' || c == '\U{A0}' || c == '\U{1680}'
    || '\U{2000}' <= c <= '\U{200A}'    // the Zs spaces of the General Punctuation block
    || c == '\U{2028}' || c == '\U{2029}' // line and paragraph separators
    || c == '\U{202F}' || c == '\U{205F}' || c == '\U{3000}' || c == '\U{FEFF}'
  }

  /** `s.trim() === ''` (true of the empty string too). */
  predicate IsBlank(s: string) {
    forall i :: 0 <= i < |s| ==> IsWhitespace(s[i])
  }

  lemma BlankAppend(a: string, b: string)
    ensures IsBlank(a + b) <==> IsBlank(a) && IsBlank(b)
  {
    if IsBlank(a + b) {
      forall i | 0 <= i < |a| ensures IsWhitespace(a[i]) {
        assert (a + b)[i] == a[i];
      }
      forall i | 0 <= i < |b| ensures IsWhitespace(b[i]) {
        assert (a + b)[|a| + i] == b[i];
      }
    }
    if IsBlank(a) && IsBlank(b) {
      forall i | 0 <= i < |a + b| ensures IsWhitespace((a + b)[i]) {
        if i >= |a| { assert (a + b)[i] == b[i - |a|]; }
      }
    }
  }

  function DigitChar(d: nat): char
    requires d < 10
  {
    (48 + d) as char
  }

  /** The decimal form JavaScript gives a non-negative integer in a template literal. */
  function NatToString(n: nat): (s: string)
    ensures |s| >= 1
    ensures n < 10 <==> |s| == 1
    decreases n
  {
    if n < 10 then [DigitChar(n)] else NatToString(n / 10) + [DigitChar(n % 10)]
  }

  /** Distinct numbers have distinct decimal forms. */
  lemma {:induction false} NatToStringInjective(a: nat, b: nat)
    requires NatToString(a) == NatToString(b)
    ensures a == b
    decreases a
  {
    var s := NatToString(a);
    if a >= 10 {
      assert b >= 10;
      assert s[|s| - 1] == DigitChar(a % 10) == DigitChar(b % 10);
      assert NatToString(a / 10) == s[..|s| - 1] == NatToString(b / 10);
      NatToStringInjective(a / 10, b / 10);
    }
  }

  /** The name of the k-th chunk resource, counting from 1: `data-part${k}.json`. */
  function PartName(k: nat): string {
    "data-part" + NatToString(k) + ".json"
  }

  /** The name of the index resource. */
  const IndexName: string := "index.json"

  /** Chunk names are distinct and never the index name. */
  lemma PartNameInjective(a: nat, b: nat)
    ensures PartName(a) == PartName(b) ==> a == b
    ensures PartName(a) != IndexName
  {
    assert PartName(a)[0] == 'd' && IndexName[0] == 'i';
    if PartName(a) == PartName(b) {
      var pa, pb := PartName(a), PartName(b);
      assert |NatToString(a)| == |NatToString(b)|;
      assert NatToString(a) == pa[9..|pa| - 5];
      assert NatToString(b) == pb[9..|pb| - 5];
      NatToStringInjective(a, b);
    }
  }
}
