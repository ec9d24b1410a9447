/** The default file name offered by the save dialog. The source builds it by
    running `string.Format` over a constant template; this module defines the
    name directly and proves it equal to a model of that composite formatting.
 */
module FileName {
  import opened Base
  import Decimal

  /** `DefaultExportAuthFileName`: the trademark, two spaces, "Authenticator",
      then either the plural "s" (no selection) or a space and the mark in
      parentheses, then a space, the timestamp and the extension. */
  function DefaultExportAuthFileName(trademark: string, timestamp: string, mpo: string, mark: Option<string>): (r: string)
    ensures mark.None? ==> r == trademark + "  Authenticators " + timestamp + mpo
    ensures mark.Some? ==> r == trademark + "  Authenticator (" + mark.value + ") " + timestamp + mpo
  {
    var plural := if mark.None? then "s" else "";
    var marked := if mark.None? then "" else "(" + mark.value + ") ";
    trademark + "  Authenticator" + plural + " " + marked + timestamp + mpo
  }

  /** The position right after the fixed `trademark + "  Authenticator"` head. */
  function HeadLength(trademark: string): nat
  {
    |trademark| + |"  Authenticator"|
  }

  /** The plural marker and a parenthesised mark never appear together: the
      character after the head is 's' exactly when there is no mark, and '('
      follows it exactly when there is one. The name always starts with the
      trademark and ends with the extension. */
  lemma FileNameShape(trademark: string, timestamp: string, mpo: string, mark: Option<string>)
    ensures var r := DefaultExportAuthFileName(trademark, timestamp, mpo, mark);
      var h := HeadLength(trademark);
      && |r| >= h + 2 + |mpo|
      && r[..|trademark|] == trademark
      && r[|r| - |mpo|..] == mpo
      && (r[h] == 's' <==> mark.None?)
      && (r[h + 1] == '(' <==> mark.Some?)
  {
    var r := DefaultExportAuthFileName(trademark, timestamp, mpo, mark);
    var h := HeadLength(trademark);
    var head := trademark + "  Authenticator";
    assert |head| == h;
    match mark {
      case None =>
        assert r == head + ("s " + timestamp + mpo);
        assert r[h] == 's';
        assert r[h + 1] == ' ';
      case Some(m) =>
        assert r == head + (" (" + m + ") " + timestamp + mpo);
        assert r[h] == ' ';
        assert r[h + 1] == '(';
    }
  }

  // ---------------------------------------------------------------------
  // Composite formatting (`string.Format`), restricted to what the
  // template uses: `{{` and `}}` escapes and single-digit items `{d}`.
  // A null argument formats as the empty string; anything else starting
  // with a brace is a format error (`None`).
  // ---------------------------------------------------------------------

  predicate NoBraces(s: string)
  {
    forall i :: 0 <= i < |s| ==> s[i] != '{' && s[i] != '}'
  }

  function ArgText(a: Option<string>): string
  {
    if a.None? then "" else a.value
  }

  function Prepend(p: string, r: Option<string>): (q: Option<string>)
    ensures q.Some? <==> r.Some?
  {
    if r.None? then None else Some(p + r.value)
  }

  function Format(f: string, args: seq<Option<string>>): Option<string>
    decreases |f|
  {
    if f == [] then Some([])
    else if f[0] == '{' then
      if |f| >= 2 && f[1] == '{' then Prepend("{", Format(f[2..], args))
      else if |f| >= 3 && Decimal.IsDigit(f[1]) && f[2] == '}' && Decimal.DigitValue(f[1]) < |args|
      then Prepend(ArgText(args[Decimal.DigitValue(f[1])]), Format(f[3..], args))
      else None
    else if f[0] == '}' then
      if |f| >= 2 && f[1] == '}' then Prepend("}", Format(f[2..], args)) else None
    else Prepend([f[0]], Format(f[1..], args))
  }

  /** Brace-free text passes through formatting unchanged. */
  lemma {:induction false} FormatLiteral(p: string, s: string, args: seq<Option<string>>)
    requires NoBraces(p)
    ensures Format(p + s, args) == Prepend(p, Format(s, args))
    decreases |p|
  {
    if p != [] {
      var f := p + s;
      assert f[0] == p[0];
      assert f[1..] == p[1..] + s;
      FormatLiteral(p[1..], s, args);
      match Format(s, args) {
        case None =>
        case Some(t) => assert [p[0]] + (p[1..] + t) == p + t;
      }
    } else {
      assert p + s == s;
      match Format(s, args) {
        case None =>
        case Some(t) => assert p + t == t;
      }
    }
  }

  /** An item `{d}` formats as argument `d`. */
  lemma FormatItem(d: nat, s: string, args: seq<Option<string>>)
    requires d < 10 && d < |args|
    ensures Format(['{', Decimal.DigitChar(d), '}'] + s, args) == Prepend(ArgText(args[d]), Format(s, args))
  {
    var f := ['{', Decimal.DigitChar(d), '}'] + s;
    assert f[3..] == s;
    assert Decimal.DigitValue(f[1]) == d;
  }

  /** The constant template of the source: the trademark and the extension
      are spliced in at compile time around the three items. */
  function Template(trademark: string, mpo: string): string
  {
    trademark + "  Authenticator{0} {1}{2}" + mpo
  }

  /** The three arguments: the plural marker, the parenthesised mark with its
      trailing space, and the timestamp. */
  function TemplateArgs(timestamp: string, mark: Option<string>): seq<Option<string>>
  {
    [ if mark.None? then Some("s") else None,
      if mark.None? then None else Some("(" + mark.value + ") "),
      Some(timestamp) ]
  }

  /** The item part of the template: `{0} {1}{2}` followed by the
      extension formats as the three arguments around a space, then the
      extension. */
  lemma FormatItems(mpo: string, args: seq<Option<string>>)
    requires NoBraces(mpo) && |args| == 3
    ensures Format("{0} {1}{2}" + mpo, args)
      == Some(ArgText(args[0]) + (" " + (ArgText(args[1]) + (ArgText(args[2]) + mpo))))
  {
    assert Decimal.DigitChar(0) == '0' && Decimal.DigitChar(1) == '1' && Decimal.DigitChar(2) == '2';
    var t4 := ['{', '2', '}'] + mpo;
    var t3 := ['{', '1', '}'] + t4;
    var t2 := " " + t3;
    assert "{0} {1}{2}" + mpo == ['{', '0', '}'] + t2;
    FormatLiteral(mpo, [], args);
    assert mpo + [] == mpo;
    FormatItem(2, mpo, args);
    FormatItem(1, t4, args);
    FormatLiteral(" ", t3, args);
    FormatItem(0, t2, args);
  }

  /** The default name is what `string.Format` makes of the source's template,
      provided the trademark and the extension contain no braces (otherwise
      the spliced-in text would itself be read as format syntax). */
  lemma FileNameIsFormatted(trademark: string, timestamp: string, mpo: string, mark: Option<string>)
    requires NoBraces(trademark) && NoBraces(mpo)
    ensures Format(Template(trademark, mpo), TemplateArgs(timestamp, mark))
      == Some(DefaultExportAuthFileName(trademark, timestamp, mpo, mark))
  {
    var args := TemplateArgs(timestamp, mark);
    var a0, a1, a2 := ArgText(args[0]), ArgText(args[1]), ArgText(args[2]);
    var lit := "  Authenticator";
    var items := "{0} {1}{2}" + mpo;
    assert Template(trademark, mpo) == trademark + (lit + items);
    FormatItems(mpo, args);
    FormatLiteral(lit, items, args);
    FormatLiteral(trademark, lit + items, args);
    assert a0 == (if mark.None? then "s" else "");
    assert a1 == (if mark.None? then "" else "(" + mark.value + ") ");
    assert a2 == timestamp;
    calc {
      DefaultExportAuthFileName(trademark, timestamp, mpo, mark);
      trademark + lit + a0 + " " + a1 + a2 + mpo;
      { SeqAssoc6(trademark, lit, a0, " ", a1, a2, mpo); }
      trademark + (lit + (a0 + (" " + (a1 + (a2 + mpo)))));
    }
  }

  lemma SeqAssoc6<T>(a: seq<T>, b: seq<T>, c: seq<T>, d: seq<T>, e: seq<T>, f: seq<T>, g: seq<T>)
    ensures a + b + c + d + e + f + g == a + (b + (c + (d + (e + (f + g)))))
  {
  }
}
