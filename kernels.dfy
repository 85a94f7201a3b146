/**
 * The kernel registry: the six 3x3 convolution matrices of `algorithms[]`,
 * indexed by the `KernelTypes` enumeration, and the lookup from a kernel's
 * command-line name to its enumeration value.
 *
 * Weights are exact reals; the C table holds doubles (so 1/9.0 is rounded
 * there and exact here).
 */
module Kernels {

  /** A 3x3 matrix of weights, `Matrix` (double[3][3]) in the C code. */
  type Matrix = m: seq<seq<real>> | |m| == 3 && |m[0]| == 3 && |m[1]| == 3 && |m[2]| == 3
    witness [[0.0, 0.0, 0.0], [0.0, 0.0, 0.0], [0.0, 0.0, 0.0]]

  /** The `KernelTypes` enumeration; its values index `Algorithms`. */
  datatype KernelType = Edge | Sharpen | Blur | GaussBlur | Emboss | Identity

  /** The integer value of each enumerator, in declaration order. */
  function Ordinal(t: KernelType): (n: nat)
    ensures n < |Algorithms|
  {
    match t
    case Edge => 0
    case Sharpen => 1
    case Blur => 2
    case GaussBlur => 3
    case Emboss => 4
    case Identity => 5
  }

  /** The table `algorithms[]`, in enumeration order. */
  const Algorithms: seq<Matrix> := [
    [[0.0, -1.0, 0.0], [-1.0, 4.0, -1.0], [0.0, -1.0, 0.0]],
    [[0.0, -1.0, 0.0], [-1.0, 5.0, -1.0], [0.0, -1.0, 0.0]],
    [[1.0 / 9.0, 1.0 / 9.0, 1.0 / 9.0], [1.0 / 9.0, 1.0 / 9.0, 1.0 / 9.0], [1.0 / 9.0, 1.0 / 9.0, 1.0 / 9.0]],
    [[1.0 / 16.0, 1.0 / 8.0, 1.0 / 16.0], [1.0 / 8.0, 1.0 / 4.0, 1.0 / 8.0], [1.0 / 16.0, 1.0 / 8.0, 1.0 / 16.0]],
    [[-2.0, -1.0, 0.0], [-1.0, 1.0, 1.0], [0.0, 1.0, 2.0]],
    [[0.0, 0.0, 0.0], [0.0, 1.0, 0.0], [0.0, 0.0, 0.0]]
  ]

  /** `algorithms[t]`: the kernel matrix of an enumeration value. */
  function KernelOf(t: KernelType): Matrix
  {
    Algorithms[Ordinal(t)]
  }

  /** The sum of all nine weights of a matrix. */
  function WeightSum(m: Matrix): real
  {
    m[0][0] + m[0][1] + m[0][2] + m[1][0] + m[1][1] + m[1][2] + m[2][0] + m[2][1] + m[2][2]
  }

  /**
   * A kernel applied to nine values listed in the order of its weights
   * (kernel row `r`, column `c` is value `3 * r + c`).
   */
  function Apply(m: Matrix, v: seq<real>): real
    requires |v| == 9
  {
    m[0][0] * v[0] + m[0][1] * v[1] + m[0][2] * v[2] +
    m[1][0] * v[3] + m[1][1] * v[4] + m[1][2] * v[5] +
    m[2][0] * v[6] + m[2][1] * v[7] + m[2][2] * v[8]
  }

  /** Applied to nine equal values, a kernel scales that value by its weight sum. */
  lemma ApplyUniform(m: Matrix, v: seq<real>, a: real)
    requires |v| == 9 && forall j :: 0 <= j < 9 ==> v[j] == a
    ensures Apply(m, v) == a * WeightSum(m)
  {
    assert v[0] == a && v[1] == a && v[2] == a && v[3] == a && v[4] == a;
    assert v[5] == a && v[6] == a && v[7] == a && v[8] == a;
  }

  /** The identity kernel is the unit impulse: 1 at the centre, 0 elsewhere. */
  predicate IsUnitImpulse(m: Matrix)
  {
    forall i, j :: 0 <= i < 3 && 0 <= j < 3 ==> m[i][j] == (if i == 1 && j == 1 then 1.0 else 0.0)
  }

  /**
   * Facts about the table's entries: the identity kernel is the unit
   * impulse, the weights of blur, gauss, sharpen and emboss sum to 1 (they
   * keep the mean), and those of the edge detector sum to 0 (it maps a flat
   * region to 0).
   */
  lemma KernelProperties()
    ensures IsUnitImpulse(KernelOf(Identity))
    ensures WeightSum(KernelOf(Identity)) == 1.0
    ensures WeightSum(KernelOf(Blur)) == 1.0
    ensures WeightSum(KernelOf(GaussBlur)) == 1.0
    ensures WeightSum(KernelOf(Sharpen)) == 1.0
    ensures WeightSum(KernelOf(Emboss)) == 1.0
    ensures WeightSum(KernelOf(Edge)) == 0.0
  {
    var id := KernelOf(Identity);
    forall i, j | 0 <= i < 3 && 0 <= j < 3
      ensures id[i][j] == (if i == 1 && j == 1 then 1.0 else 0.0)
    {
      assert id == [[0.0, 0.0, 0.0], [0.0, 1.0, 0.0], [0.0, 0.0, 0.0]];
    }
  }

  /** The unit impulse picks out the middle value. */
  lemma ApplyUnitImpulse(m: Matrix, v: seq<real>)
    requires |v| == 9 && IsUnitImpulse(m)
    ensures Apply(m, v) == v[4]
  {
    assert m[0][0] == 0.0 && m[0][1] == 0.0 && m[0][2] == 0.0;
    assert m[1][0] == 0.0 && m[1][1] == 1.0 && m[1][2] == 0.0;
    assert m[2][0] == 0.0 && m[2][1] == 0.0 && m[2][2] == 0.0;
  }

  /** The command-line name of each kernel, as the usage text lists them. */
  function KernelName(t: KernelType): string
  {
    match t
    case Edge => "edge"
    case Sharpen => "sharpen"
    case Blur => "blur"
    case GaussBlur => "gauss"
    case Emboss => "emboss"
    case Identity => "identity"
  }

  /**
   * `GetKernelType`: the kernel named `name`; any name that is not one of
   * the five filters falls back to the identity kernel.
   */
  function GetKernelType(name: string): (t: KernelType)
    ensures t == Identity || KernelName(t) == name
    ensures name !in {"edge", "sharpen", "blur", "gauss", "emboss"} ==> t == Identity
  {
    if name == "edge" then Edge
    else if name == "sharpen" then Sharpen
    else if name == "blur" then Blur
    else if name == "gauss" then GaussBlur
    else if name == "emboss" then Emboss
    else Identity
  }

  /** Looking up a kernel's own name yields that kernel, for every kernel. */
  lemma {:induction false} GetKernelTypeOfName(t: KernelType)
    ensures GetKernelType(KernelName(t)) == t
  {
    match t
    case Edge =>
    case Sharpen =>
      assert "sharpen" != "edge";
    case Blur =>
      assert "blur" != "edge" && "blur" != "sharpen";
    case GaussBlur =>
      assert "gauss" != "edge" && "gauss" != "sharpen" && "gauss" != "blur";
    case Emboss =>
      assert "emboss" != "edge" && "emboss" != "sharpen" && "emboss" != "blur" && "emboss" != "gauss";
    case Identity =>
      assert "identity" != "edge" && "identity" != "sharpen" && "identity" != "blur";
      assert "identity" != "gauss" && "identity" != "emboss";
  }

  /** A name selects a kernel other than identity exactly when it is that kernel's name. */
  lemma GetKernelTypeSelects(name: string, t: KernelType)
    requires t != Identity
    ensures GetKernelType(name) == t <==> name == KernelName(t)
  {
    if name == KernelName(t) {
      GetKernelTypeOfName(t);
    }
  }
}
