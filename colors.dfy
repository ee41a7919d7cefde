/** The colour representations and the vertex record of the renderer: a float
    colour, a packed colour of three 8-bit channels, and the vertex layout.
    Single-precision floats are modelled as reals. */
module Colors {

  /** A three-component float vector (linalg's float3). */
  datatype Float3 = Float3(x: real, y: real, z: real)

  /** A float colour; its range is conceptually [0, 1] but not enforced. */
  datatype Color = Color(r: real, g: real, b: real)
  {
    static function FromFloat3(v: Float3): (c: Color)
      ensures c.ToFloat3() == v
    {
      Color(v.x, v.y, v.z)
    }

    function ToFloat3(): Float3
    {
      Float3(r, g, b)
    }
  }

  /** Converting a colour to a vector and back gives the same colour. */
  lemma ColorRoundTrip(c: Color)
    ensures Color.FromFloat3(c.ToFloat3()) == c
  {
  }

  /** An 8-bit unsigned channel value (uint8_t). */
  type Byte = b: int | 0 <= b < 256

  /** The largest channel value. */
  const ByteMax: real := 255.0

  /** A float whose scaled value `c * 255` truncates to a representable uint8_t:
      the cast of any other value is undefined. */
  predicate Convertible(c: real)
  {
    -1.0 < c * ByteMax < 256.0
  }

  /** A float in the unit interval. */
  predicate Unit(c: real)
  {
    0.0 <= c <= 1.0
  }

  /** static_cast<uint8_t>(t): truncation toward zero. */
  function TruncateToByte(t: real): (b: Byte)
    requires -1.0 < t < 256.0
    ensures t >= 0.0 ==> b as real <= t < b as real + 1.0
    ensures t < 0.0 ==> b == 0
  {
    if t < 0.0 then 0 else t.Floor
  }

  /** A packed colour, one byte per channel. */
  datatype UnsignedColor = UnsignedColor(r: Byte, g: Byte, b: Byte)
  {
    static function FromColor(c: Color): (u: UnsignedColor)
      requires Convertible(c.r) && Convertible(c.g) && Convertible(c.b)
      ensures u == FromFloat3(c.ToFloat3())
    {
      UnsignedColor(TruncateToByte(c.r * ByteMax), TruncateToByte(c.g * ByteMax), TruncateToByte(c.b * ByteMax))
    }

    static function FromFloat3(v: Float3): (u: UnsignedColor)
      requires Convertible(v.x) && Convertible(v.y) && Convertible(v.z)
      ensures Unit(v.x) ==> u.r as real <= v.x * ByteMax < u.r as real + 1.0
      ensures Unit(v.y) ==> u.g as real <= v.y * ByteMax < u.g as real + 1.0
      ensures Unit(v.z) ==> u.b as real <= v.z * ByteMax < u.b as real + 1.0
    {
      UnsignedColor(TruncateToByte(v.x * ByteMax), TruncateToByte(v.y * ByteMax), TruncateToByte(v.z * ByteMax))
    }

    function ToFloat3(): (v: Float3)
      ensures v.x * ByteMax == r as real && Unit(v.x)
      ensures v.y * ByteMax == g as real && Unit(v.y)
      ensures v.z * ByteMax == b as real && Unit(v.z)
    {
      Float3(r as real / ByteMax, g as real / ByteMax, b as real / ByteMax)
    }
  }

  /** A byte channel converted to a float and back is the same byte. */
  lemma ByteRoundTrip(u: UnsignedColor)
    ensures UnsignedColor.FromFloat3(u.ToFloat3()) == u
  {
    var v := u.ToFloat3();
    ByteFloor(u.r, v.x);
    ByteFloor(u.g, v.y);
    ByteFloor(u.b, v.z);
  }

  lemma ByteFloor(b: Byte, c: real)
    requires c * ByteMax == b as real
    ensures Convertible(c) && TruncateToByte(c * ByteMax) == b
  {
    assert (b as real).Floor == b;
  }

  /** For a unit-range vector, packing and unpacking loses less than 1/255 per
      channel, and never rounds up. */
  lemma QuantizationError(v: Float3)
    requires Unit(v.x) && Unit(v.y) && Unit(v.z)
    ensures Convertible(v.x) && Convertible(v.y) && Convertible(v.z)
    ensures var w := UnsignedColor.FromFloat3(v).ToFloat3();
      && 0.0 <= v.x - w.x < 1.0 / ByteMax
      && 0.0 <= v.y - w.y < 1.0 / ByteMax
      && 0.0 <= v.z - w.z < 1.0 / ByteMax
  {
    var u := UnsignedColor.FromFloat3(v);
    var w := u.ToFloat3();
    ChannelError(v.x, u.r, w.x);
    ChannelError(v.y, u.g, w.y);
    ChannelError(v.z, u.b, w.z);
  }

  lemma ChannelError(c: real, b: Byte, back: real)
    requires Unit(c) && b as real <= c * ByteMax < b as real + 1.0
    requires back * ByteMax == b as real
    ensures 0.0 <= c - back < 1.0 / ByteMax
  {
    assert (c - back) * ByteMax == c * ByteMax - b as real;
  }

  /** The vertex record: position, normal, texture coordinate and three
      material colour triples. */
  datatype Vertex = Vertex(
    x: real, y: real, z: real,
    nx: real, ny: real, nz: real,
    u: real, v: real,
    ambientR: real, ambientG: real, ambientB: real,
    diffuseR: real, diffuseG: real, diffuseB: real,
    emissiveR: real, emissiveG: real, emissiveB: real)
}
