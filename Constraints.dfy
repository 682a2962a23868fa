/** The jakarta.validation constraints the DTOs and entities declare, as Hibernate Validator
    evaluates them. A null value passes every constraint except NotNull, NotEmpty and NotBlank. */
module Constraints {
  import opened Common
  import opened Text

  /** @NotNull */
  predicate NotNull<T>(x: Option<T>) {
    x.Some?
  }

  /** @NotBlank on a String: not null, and trim() leaves something. */
  predicate NotBlank(s: Option<string>) {
    s.Some? && HasText(s.value)
  }

  /** @Size(min, max) on a String. */
  predicate Size(s: Option<string>, min: nat, max: nat) {
    s.None? || min <= |s.value| <= max
  }

  /** @NotEmpty on a List. */
  predicate NotEmpty<T>(xs: Option<seq<T>>) {
    xs.Some? && |xs.value| > 0
  }

  /** @Size(min) on a List. */
  predicate MinSize<T>(xs: Option<seq<T>>, min: nat) {
    xs.None? || min <= |xs.value|
  }

  /** @Positive on an Integer. */
  predicate Positive(x: Option<int>) {
    x.None? || x.value > 0
  }

  /** @Positive on a Float. */
  predicate PositiveReal(x: Option<real>) {
    x.None? || x.value > 0.0
  }

  /** @Max(max) on a Float. */
  predicate MaxReal(x: Option<real>, max: int) {
    x.None? || x.value <= max as real
  }
}
