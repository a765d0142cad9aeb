/** Colours and per-channel attenuation factors (color.rs). */
module Colors {

  import opened Reals

  /** An RGB triple of channel intensities. */
  datatype Color = Color(r: real, g: real, b: real) {

    /** Every channel lies in the closed interval [0, 1]. */
    predicate InUnitRange() {
      && 0.0 <= r <= 1.0
      && 0.0 <= g <= 1.0
      && 0.0 <= b <= 1.0
    }

    /** `Color::blend`: the point a fraction `t` of the way from this colour
        to `other`, channel by channel. */
    function Blend(t: real, other: Color): (c: Color)
      ensures t == 0.0 ==> c == this
      ensures t == 1.0 ==> c == other
      ensures other == this ==> c == this
      ensures 0.0 <= t <= 1.0 && InUnitRange() && other.InUnitRange() ==> c.InUnitRange()
    {
      Color(Lerp(r, t, other.r), Lerp(g, t, other.g), Lerp(b, t, other.b))
    }

    /** Every channel multiplied by `k`; the integrator halves colours with it
        (color.rs does not define it, although the integrator calls it). */
    function Scale(k: real): Color {
      Color(r * k, g * k, b * k)
    }
  }

  /** The attenuation a material applies on scattering has the shape of a colour. */
  type Attenuation = Color

  const Black := Color(0.0, 0.0, 0.0)

  /** Linear interpolation of one channel: for `t` in [0, 1] the result lies
      between the two endpoints. */
  function Lerp(a: real, t: real, b: real): (v: real)
    ensures t == 0.0 ==> v == a
    ensures t == 1.0 ==> v == b
    ensures 0.0 <= t <= 1.0 ==> (a <= v <= b || b <= v <= a)
  {
    var v := (1.0 - t) * a + t * b;
    LerpBetween(a, t, b, v);
    v
  }

  /** The convex combination lies between its endpoints. */
  lemma LerpBetween(a: real, t: real, b: real, v: real)
    requires v == (1.0 - t) * a + t * b
    ensures 0.0 <= t <= 1.0 ==> a <= v <= b || b <= v <= a
  {
    if 0.0 <= t <= 1.0 {
      if a <= b {
        ProductNonneg(t, b - a);
        ProductNonneg(1.0 - t, b - a);
        assert (1.0 - t) * a + t * b - a == t * (b - a);
        assert b - ((1.0 - t) * a + t * b) == (1.0 - t) * (b - a);
      } else {
        ProductNonneg(t, a - b);
        ProductNonneg(1.0 - t, a - b);
        assert a - ((1.0 - t) * a + t * b) == t * (a - b);
        assert (1.0 - t) * a + t * b - b == (1.0 - t) * (a - b);
      }
    }
  }

  /** Each output channel of a blend depends on that channel of the inputs only. */
  lemma BlendChannelwise(c1: Color, d1: Color, c2: Color, d2: Color, t: real)
    ensures c1.r == c2.r && d1.r == d2.r ==> c1.Blend(t, d1).r == c2.Blend(t, d2).r
    ensures c1.g == c2.g && d1.g == d2.g ==> c1.Blend(t, d1).g == c2.Blend(t, d2).g
    ensures c1.b == c2.b && d1.b == d2.b ==> c1.Blend(t, d1).b == c2.Blend(t, d2).b
  {
  }
}
