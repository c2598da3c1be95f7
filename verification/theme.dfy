/** The page's colour theme: one flag, dark by default, flipped by the theme
    button in the footer. Applying the flag to the document root is a DOM
    side effect and is not modelled.
 */
module Theme {

  /** The page mounts in the dark theme. */
  const InitialIsDark: bool := true

  /** One press of the theme button. */
  function Toggle(isDark: bool): (r: bool)
    ensures r != isDark
  {
    !isDark
  }

  /** The theme after `n` presses: the starting one exactly when `n` is even. */
  function ToggleTimes(isDark: bool, n: nat): (r: bool)
    ensures r == (if n % 2 == 0 then isDark else !isDark)
  {
    if n == 0 then isDark else Toggle(ToggleTimes(isDark, n - 1))
  }

  /** Pressing twice restores the theme. */
  lemma {:induction false} ToggleTwice(isDark: bool)
    ensures Toggle(Toggle(isDark)) == isDark
  {
  }

  /** `m` presses followed by `n` more are `m + n` presses. */
  lemma {:induction false} ToggleTimesCompose(isDark: bool, m: nat, n: nat)
    ensures ToggleTimes(ToggleTimes(isDark, m), n) == ToggleTimes(isDark, m + n)
  {
  }

  /** From page load, the page is dark exactly after an even number of presses. */
  lemma {:induction false} DarkAfterEvenPresses(n: nat)
    ensures ToggleTimes(InitialIsDark, n) <==> n % 2 == 0
  {
  }
}
