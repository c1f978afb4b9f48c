/** The Tailwind class strings the pages use for coloured badges. Each badge
    is `text-X border-X bg-X/10` for one colour token `X`. */
module Styles {

  function Badge(token: string): (classes: string)
    ensures |classes| == 3 * |token| + 20
  {
    "text-" + token + " border-" + token + " bg-" + token + "/10"
  }

  /** Different colour tokens give different badges. */
  lemma BadgeInjective(a: string, b: string)
    ensures Badge(a) == Badge(b) <==> a == b
  {
    if Badge(a) == Badge(b) {
      assert |a| == |b|;
      assert Badge(a)[5..5 + |a|] == a;
      assert Badge(b)[5..5 + |b|] == b;
    }
  }
}
