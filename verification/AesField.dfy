/** MixColumns of contrib/aes.c and its inverse: the matrices of sections 5.1.3 and 5.3.3
    of FIPS 197 over the tabled products. */
module AesField {
  import opened Bytes
  import opened AesTables

  datatype Column = Column(b0: byte, b1: byte, b2: byte, b3: byte)

  function MixColumn(c: Column): Column {
    Column(Add4(Mul2(c.b0), Mul3(c.b1), c.b2, c.b3),
           Add4(c.b0, Mul2(c.b1), Mul3(c.b2), c.b3),
           Add4(c.b0, c.b1, Mul2(c.b2), Mul3(c.b3)),
           Add4(Mul3(c.b0), c.b1, c.b2, Mul2(c.b3)))
  }

  function InvMixColumn(c: Column): Column {
    Column(Add4(Mul14(c.b0), Mul11(c.b1), Mul13(c.b2), Mul9(c.b3)),
           Add4(Mul9(c.b0), Mul14(c.b1), Mul11(c.b2), Mul13(c.b3)),
           Add4(Mul13(c.b0), Mul9(c.b1), Mul14(c.b2), Mul11(c.b3)),
           Add4(Mul11(c.b0), Mul13(c.b1), Mul9(c.b2), Mul14(c.b3)))
  }

  // ----- products distribute over addition ---------------------------------------

  lemma XTimeLinear(x: byte, y: byte)
    ensures XTime(Add(x, y)) == Add(XTime(x), XTime(y))
  {
  }

  lemma XLinear(x: byte, y: byte)
    ensures X2(Add(x, y)) == Add(X2(x), X2(y))
    ensures X4(Add(x, y)) == Add(X4(x), X4(y))
    ensures X8(Add(x, y)) == Add(X8(x), X8(y))
  {
    hide XTime, Add;
    XTimeLinear(x, y);
    XTimeLinear(XTime(x), XTime(y));
    XTimeLinear(XTime(XTime(x)), XTime(XTime(y)));
  }

  lemma ProductsOf(x: byte)
    ensures Mul2(x) == X2(x) && Mul3(x) == Add(X2(x), x)
    ensures Mul9(x) == Add(X8(x), x) && Mul11(x) == Add3(X8(x), X2(x), x)
    ensures Mul13(x) == Add3(X8(x), X4(x), x) && Mul14(x) == Add3(X8(x), X4(x), X2(x))
  {
    hide Mul2, Mul3, Mul9, Mul11, Mul13, Mul14, X2, X4, X8, Add, Add3;
    Mul2Product(x); Mul3Product(x); Mul9Product(x); Mul11Product(x); Mul13Product(x); Mul14Product(x);
  }

  lemma AddAssociates(a: byte, b: byte, c: byte)
    ensures Add(Add(a, b), c) == Add(a, Add(b, c))
  {
  }

  lemma AddCommutes(a: byte, b: byte)
    ensures Add(a, b) == Add(b, a)
  {
  }

  lemma Interleave(a: byte, b: byte, c: byte, d: byte)
    ensures Add(Add(a, b), Add(c, d)) == Add(Add(a, c), Add(b, d))
  {
    hide Add;
    AddAssociates(a, b, Add(c, d));
    AddAssociates(b, c, d);
    AddCommutes(b, c);
    AddAssociates(c, b, d);
    AddAssociates(a, c, Add(b, d));
  }

  lemma Interleave3(a: byte, b: byte, c: byte, d: byte, e: byte, f: byte)
    ensures Add3(Add(a, b), Add(c, d), Add(e, f)) == Add(Add3(a, c, e), Add3(b, d, f))
  {
    hide Add;
    Interleave(a, b, c, d);
    Interleave(Add(a, c), Add(b, d), e, f);
  }

  lemma Interleave4(a1: byte, b1: byte, a2: byte, b2: byte, a3: byte, b3: byte, a4: byte, b4: byte)
    ensures Add4(Add(a1, b1), Add(a2, b2), Add(a3, b3), Add(a4, b4)) == Add(Add4(a1, a2, a3, a4), Add4(b1, b2, b3, b4))
  {
    hide Add;
    Interleave(a1, b1, a2, b2);
    Interleave(a3, b3, a4, b4);
    Interleave(Add(a1, a2), Add(b1, b2), Add(a3, a4), Add(b3, b4));
  }

  /** The tabled products distribute over addition. */
  lemma ProductsLinear(x: byte, y: byte)
    ensures Mul9(Add(x, y)) == Add(Mul9(x), Mul9(y)) && Mul11(Add(x, y)) == Add(Mul11(x), Mul11(y))
    ensures Mul13(Add(x, y)) == Add(Mul13(x), Mul13(y)) && Mul14(Add(x, y)) == Add(Mul14(x), Mul14(y))
  {
    hide Mul2, Mul3, Mul9, Mul11, Mul13, Mul14, X2, X4, X8, Add, Add3;
    ProductsOf(x);
    ProductsOf(y);
    ProductsOf(Add(x, y));
    XLinear(x, y);
    Interleave(X8(x), X8(y), x, y);
    Interleave3(X8(x), X8(y), X2(x), X2(y), x, y);
    Interleave3(X8(x), X8(y), X4(x), X4(y), x, y);
    Interleave3(X8(x), X8(y), X4(x), X4(y), X2(x), X2(y));
  }

  lemma ProductsLinear4(a: byte, b: byte, c: byte, d: byte)
    ensures Mul9(Add4(a, b, c, d)) == Add4(Mul9(a), Mul9(b), Mul9(c), Mul9(d))
    ensures Mul11(Add4(a, b, c, d)) == Add4(Mul11(a), Mul11(b), Mul11(c), Mul11(d))
    ensures Mul13(Add4(a, b, c, d)) == Add4(Mul13(a), Mul13(b), Mul13(c), Mul13(d))
    ensures Mul14(Add4(a, b, c, d)) == Add4(Mul14(a), Mul14(b), Mul14(c), Mul14(d))
  {
    hide Mul9, Mul11, Mul13, Mul14, Add;
    ProductsLinear(Add(a, b), Add(c, d));
    ProductsLinear(a, b);
    ProductsLinear(c, d);
  }

  // Products by fixed factors are polynomials in x. Those of the matrix and of its
  // inverse have degrees 1 and 3, so their products stay below degree 5 and the
  // matrix identity holds without reduction.

  datatype Bit = O | I {
    function Plus(d: Bit): Bit {
      if this == d then O else I
    }
  }

  function Term(c: Bit, x: byte): byte {
    if c == I then x else 0
  }

  datatype Poly = Poly(c1: Bit, c2: Bit, c4: Bit, c8: Bit, c16: Bit) {
    function Plus(q: Poly): Poly {
      Poly(c1.Plus(q.c1), c2.Plus(q.c2), c4.Plus(q.c4), c8.Plus(q.c8), c16.Plus(q.c16))
    }

    /** Times x, for degree below 4. */
    function Doubled(): Poly {
      Poly(O, c1, c2, c4, c8)
    }
  }

  /** The value of a polynomial, given the powers. */
  function Sum(p: Poly, x1: byte, x2: byte, x4: byte, x8: byte, x16: byte): byte {
    Add(Term(p.c16, x16), Add4(Term(p.c8, x8), Term(p.c4, x4), Term(p.c2, x2), Term(p.c1, x1)))
  }

  function Eval(p: Poly, x: byte): byte {
    Sum(p, x, X2(x), X4(x), X8(x), XTime(X8(x)))
  }

  lemma TermAdds(c: Bit, d: Bit, x: byte)
    ensures Add(Term(c, x), Term(d, x)) == Term(c.Plus(d), x)
  {
  }

  lemma TermsAdd(c1: Bit, c2: Bit, c4: Bit, c8: Bit, c16: Bit, d1: Bit, d2: Bit, d4: Bit, d8: Bit, d16: Bit,
                 x1: byte, x2: byte, x4: byte, x8: byte, x16: byte)
    ensures Add(Add(Term(c16, x16), Add4(Term(c8, x8), Term(c4, x4), Term(c2, x2), Term(c1, x1))),
                Add(Term(d16, x16), Add4(Term(d8, x8), Term(d4, x4), Term(d2, x2), Term(d1, x1))))
         == Add(Term(c16.Plus(d16), x16),
                Add4(Term(c8.Plus(d8), x8), Term(c4.Plus(d4), x4), Term(c2.Plus(d2), x2), Term(c1.Plus(d1), x1)))
  {
    hide Add, Add4, Term, Bit.Plus;
    TermAdds(c1, d1, x1); TermAdds(c2, d2, x2); TermAdds(c4, d4, x4); TermAdds(c8, d8, x8); TermAdds(c16, d16, x16);
    Interleave4(Term(c8, x8), Term(d8, x8), Term(c4, x4), Term(d4, x4),
                Term(c2, x2), Term(d2, x2), Term(c1, x1), Term(d1, x1));
    Interleave(Term(c16, x16), Add4(Term(c8, x8), Term(c4, x4), Term(c2, x2), Term(c1, x1)),
               Term(d16, x16), Add4(Term(d8, x8), Term(d4, x4), Term(d2, x2), Term(d1, x1)));
  }

  lemma SumAdds(p: Poly, q: Poly, x1: byte, x2: byte, x4: byte, x8: byte, x16: byte)
    ensures Add(Sum(p, x1, x2, x4, x8, x16), Sum(q, x1, x2, x4, x8, x16)) == Sum(p.Plus(q), x1, x2, x4, x8, x16)
  {
    hide Add, Add4, Term, Bit.Plus;
    TermsAdd(p.c1, p.c2, p.c4, p.c8, p.c16, q.c1, q.c2, q.c4, q.c8, q.c16, x1, x2, x4, x8, x16);
  }

  lemma EvalAdds(p: Poly, q: Poly, x: byte)
    ensures Add(Eval(p, x), Eval(q, x)) == Eval(p.Plus(q), x)
  {
    hide Add, Sum;
    SumAdds(p, q, x, X2(x), X4(x), X8(x), XTime(X8(x)));
  }

  lemma EvalAdds4(p: Poly, q: Poly, r: Poly, s: Poly, x: byte)
    ensures Add4(Eval(p, x), Eval(q, x), Eval(r, x), Eval(s, x)) == Eval(p.Plus(q).Plus(r.Plus(s)), x)
  {
    hide Add, Eval;
    EvalAdds(p, q, x); EvalAdds(r, s, x); EvalAdds(p.Plus(q), r.Plus(s), x);
  }

  const P1 := Poly(I, O, O, O, O)
  const P9 := Poly(I, O, O, I, O)
  const P11 := Poly(I, I, O, I, O)
  const P13 := Poly(I, O, I, I, O)
  const P14 := Poly(O, I, I, I, O)

  lemma AddZero(x: byte)
    ensures Add(0, x) == x == Add(x, 0)
  {
  }

  lemma ProductsAsPolys(x: byte)
    ensures x == Eval(P1, x) && Mul9(x) == Eval(P9, x) && Mul11(x) == Eval(P11, x)
    ensures Mul13(x) == Eval(P13, x) && Mul14(x) == Eval(P14, x)
  {
    hide Mul2, Mul3, Mul9, Mul11, Mul13, Mul14, Add, X2, X4, X8, XTime;
    ProductsOf(x);
    AddZero(x); AddZero(0); AddZero(X2(x)); AddZero(X4(x)); AddZero(X8(x));
    AddZero(Add(X8(x), X4(x))); AddZero(Add(Add(X8(x), X4(x)), X2(x)));
    AddZero(Add(Add(X8(x), X4(x)), x)); AddZero(Add(X2(x), x)); AddZero(Add(X8(x), x));
    AddAssociates(X8(x), X2(x), x);
    AddZero(Add(X8(x), Add(X2(x), x)));
  }

  /** The products of a doubled byte have the doubled polynomials. */
  lemma DoubledProductsAsPolys(x: byte)
    ensures Mul9(X2(x)) == Eval(P9.Doubled(), x) && Mul11(X2(x)) == Eval(P11.Doubled(), x)
    ensures Mul13(X2(x)) == Eval(P13.Doubled(), x) && Mul14(X2(x)) == Eval(P14.Doubled(), x)
  {
    hide Mul9, Mul11, Mul13, Mul14, Eval, X2;
    ProductsAsPolys(X2(x));
    EvalDoubled(P9, x); EvalDoubled(P11, x); EvalDoubled(P13, x); EvalDoubled(P14, x);
  }

  lemma EvalDoubled(p: Poly, x: byte)
    requires p.c16 == O
    ensures Eval(p, X2(x)) == Eval(p.Doubled(), x)
  {
    hide Sum, XTime;
    SumDoubled(p, x, X2(x), X4(x), X8(x), XTime(X8(x)), XTime(XTime(X8(x))));
  }

  lemma SumDoubled(p: Poly, x1: byte, x2: byte, x4: byte, x8: byte, x16: byte, x32: byte)
    requires p.c16 == O
    ensures Sum(p, x2, x4, x8, x16, x32) == Sum(p.Doubled(), x1, x2, x4, x8, x16)
  {
    hide Add;
    var a, b, c, d := Term(p.c8, x16), Term(p.c4, x8), Term(p.c2, x4), Term(p.c1, x2);
    AddZero(Add4(a, b, c, d));
    AddZero(d);
    AddAssociates(a, b, Add(c, d));
    AddAssociates(b, c, d);
  }

  /** The products of a tripled byte have the sums of both. */
  lemma TripledProductsAsPolys(x: byte)
    ensures Mul9(Mul3(x)) == Eval(P9.Doubled().Plus(P9), x) && Mul11(Mul3(x)) == Eval(P11.Doubled().Plus(P11), x)
    ensures Mul13(Mul3(x)) == Eval(P13.Doubled().Plus(P13), x) && Mul14(Mul3(x)) == Eval(P14.Doubled().Plus(P14), x)
  {
    hide Mul2, Mul3, Mul9, Mul11, Mul13, Mul14, Add, Eval, X2;
    ProductsOf(x);
    ProductsLinear(X2(x), x);
    ProductsAsPolys(x);
    DoubledProductsAsPolys(x);
    EvalAdds(P9.Doubled(), P9, x); EvalAdds(P11.Doubled(), P11, x);
    EvalAdds(P13.Doubled(), P13, x); EvalAdds(P14.Doubled(), P14, x);
  }

  /** The matrix product of section 5.3.3 of FIPS 197, one coefficient at a time: what
      one input byte contributes to its own output byte, and to the other three. */
  lemma Coefficients(x: byte)
    ensures Add4(Mul14(Mul2(x)), Mul11(x), Mul13(x), Mul9(Mul3(x))) == x
    ensures Add4(Mul14(Mul3(x)), Mul11(Mul2(x)), Mul13(x), Mul9(x)) == 0
    ensures Add4(Mul14(x), Mul11(Mul3(x)), Mul13(Mul2(x)), Mul9(x)) == 0
    ensures Add4(Mul14(x), Mul11(x), Mul13(Mul3(x)), Mul9(Mul2(x))) == 0
  {
    hide Mul2, Mul3, Mul9, Mul11, Mul13, Mul14, Add, Add4, Eval, X2;
    ProductsOf(x);
    ProductsAsPolys(x);
    DoubledProductsAsPolys(x);
    TripledProductsAsPolys(x);
    EvalAdds4(P14.Doubled(), P11, P13, P9.Doubled().Plus(P9), x);
    EvalAdds4(P14.Doubled().Plus(P14), P11.Doubled(), P13, P9, x);
    EvalAdds4(P14, P11.Doubled().Plus(P11), P13.Doubled(), P9, x);
    EvalAdds4(P14, P11, P13.Doubled().Plus(P13), P9.Doubled(), x);
    EvalNothing(x);
  }

  lemma EvalNothing(x: byte)
    ensures Eval(Poly(O, O, O, O, O), x) == 0
  {
    hide X2, X4, X8, XTime;
  }

  lemma Regroup(a1: byte, b1: byte, c1: byte, d1: byte, a2: byte, b2: byte, c2: byte, d2: byte,
                a3: byte, b3: byte, c3: byte, d3: byte, a4: byte, b4: byte, c4: byte, d4: byte)
    ensures Add4(Add4(a1, b1, c1, d1), Add4(a2, b2, c2, d2), Add4(a3, b3, c3, d3), Add4(a4, b4, c4, d4))
         == Add4(Add4(a1, a2, a3, a4), Add4(b1, b2, b3, b4), Add4(c1, c2, c3, c4), Add4(d1, d2, d3, d4))
  {
    hide Add;
    Interleave4(Add(a1, b1), Add(c1, d1), Add(a2, b2), Add(c2, d2), Add(a3, b3), Add(c3, d3), Add(a4, b4), Add(c4, d4));
    Interleave4(a1, b1, a2, b2, a3, b3, a4, b4);
    Interleave4(c1, d1, c2, d2, c3, d3, c4, d4);
  }

  lemma AddZeros(a: byte)
    ensures Add4(a, 0, 0, 0) == a
  {
  }

  /** One row of the inverse matrix times the matrix. */
  lemma InvMixRow(a: byte, b: byte, c: byte, d: byte)
    ensures Add4(Mul14(Add4(Mul2(a), Mul3(b), c, d)), Mul11(Add4(a, Mul2(b), Mul3(c), d)),
                 Mul13(Add4(a, b, Mul2(c), Mul3(d))), Mul9(Add4(Mul3(a), b, c, Mul2(d)))) == a
  {
    hide Mul2, Mul3, Mul9, Mul11, Mul13, Mul14, Add4;
    ProductsLinear4(Mul2(a), Mul3(b), c, d);
    ProductsLinear4(a, Mul2(b), Mul3(c), d);
    ProductsLinear4(a, b, Mul2(c), Mul3(d));
    ProductsLinear4(Mul3(a), b, c, Mul2(d));
    Coefficients(a); Coefficients(b); Coefficients(c); Coefficients(d);
    Regroup(Mul14(Mul2(a)), Mul14(Mul3(b)), Mul14(c), Mul14(d), Mul11(a), Mul11(Mul2(b)), Mul11(Mul3(c)), Mul11(d),
            Mul13(a), Mul13(b), Mul13(Mul2(c)), Mul13(Mul3(d)), Mul9(Mul3(a)), Mul9(b), Mul9(c), Mul9(Mul2(d)));
    AddZeros(a);
  }

  lemma Rotate(a: byte, b: byte, c: byte, d: byte)
    ensures Add4(a, b, c, d) == Add4(b, c, d, a)
  {
    hide Add;
    AddAssociates(a, b, Add(c, d));
    AddCommutes(a, Add(b, Add(c, d)));
    AddAssociates(b, c, d);
    AddAssociates(Add(b, c), d, a);
  }

  /** Turning a column turns its product with the circulant matrix. */
  lemma MixTurns(a: byte, b: byte, c: byte, d: byte)
    ensures var m := MixColumn(Column(a, b, c, d)); MixColumn(Column(b, c, d, a)) == Column(m.b1, m.b2, m.b3, m.b0)
  {
    hide Mul2, Mul3, Add4;
    Rotate(a, Mul2(b), Mul3(c), d);
    Rotate(a, b, Mul2(c), Mul3(d));
    Rotate(Mul3(a), b, c, Mul2(d));
    Rotate(Mul2(a), Mul3(b), c, d);
  }

  lemma InvMixTurns(a: byte, b: byte, c: byte, d: byte)
    ensures var m := InvMixColumn(Column(a, b, c, d)); InvMixColumn(Column(b, c, d, a)) == Column(m.b1, m.b2, m.b3, m.b0)
  {
    hide Mul9, Mul11, Mul13, Mul14, Add4;
    Rotate(Mul9(a), Mul14(b), Mul11(c), Mul13(d));
    Rotate(Mul13(a), Mul9(b), Mul14(c), Mul11(d));
    Rotate(Mul11(a), Mul13(b), Mul9(c), Mul14(d));
    Rotate(Mul14(a), Mul11(b), Mul13(c), Mul9(d));
  }

  lemma InvMixFirst(c: Column)
    ensures InvMixColumn(MixColumn(c)).b0 == c.b0
  {
    hide Mul2, Mul3, Mul9, Mul11, Mul13, Mul14, Add4;
    InvMixRow(c.b0, c.b1, c.b2, c.b3);
  }

  function Turn(c: Column): Column {
    Column(c.b1, c.b2, c.b3, c.b0)
  }

  lemma InvMixMixTurns(c: Column)
    ensures InvMixColumn(MixColumn(Turn(c))) == Turn(InvMixColumn(MixColumn(c)))
  {
    hide InvMixColumn, MixColumn;
    MixTurns(c.b0, c.b1, c.b2, c.b3);
    var m := MixColumn(c);
    InvMixTurns(m.b0, m.b1, m.b2, m.b3);
  }

  /** The tabled InvMixColumns inverts the tabled MixColumns. */
  lemma InvMixMix(c: Column)
    ensures InvMixColumn(MixColumn(c)) == c
  {
    hide InvMixColumn, MixColumn;
    var c1, c2, c3 := Turn(c), Turn(Turn(c)), Turn(Turn(Turn(c)));
    InvMixFirst(c); InvMixFirst(c1); InvMixFirst(c2); InvMixFirst(c3);
    InvMixMixTurns(c); InvMixMixTurns(c1); InvMixMixTurns(c2);
  }
}
