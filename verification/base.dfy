/** Small vocabulary shared by the whole model: optional values standing for
    C#'s nullable references, the 16-bit `ushort` used for authenticator ids,
    and the two `string` null/blank tests the view-model relies on.
 */
module Base {

  /** `None` stands for a C# `null` reference. */
  datatype Option<+T> = None | Some(value: T)

  /** C#'s `ushort`: an unsigned 16-bit integer. */
  type UShort = x: nat | x < 0x1_0000

  /** `char.IsWhiteSpace`: the Unicode space, line and paragraph separators
      (categories Zs, Zl, Zp) together with the control characters
      U+0009..U+000D and U+0085. */
  predicate IsWhiteSpace(c: char)
  {
    var n := c as int;
    || (0x09 <= n <= 0x0D)
    || n == 0x20
    || n == 0x85
    || n == 0xA0
    || n == 0x1680
    || (0x2000 <= n <= 0x200A)
    || n == 0x2028
    || n == 0x2029
    || n == 0x202F
    || n == 0x205F
    || n == 0x3000
  }

  /** True of a string made only of white-space characters (the empty string included). */
  predicate IsBlank(s: string)
  {
    forall i :: 0 <= i < |s| ==> IsWhiteSpace(s[i])
  }

  /** `string.IsNullOrEmpty` */
  predicate IsNullOrEmpty(s: Option<string>)
  {
    s.None? || s.value == []
  }

  /** `string.IsNullOrWhiteSpace` */
  predicate IsNullOrWhiteSpace(s: Option<string>)
  {
    s.None? || IsBlank(s.value)
  }
}
