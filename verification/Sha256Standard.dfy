/** That the specification of SHA-256 is the standard's: its constants are roots of primes (FIPS 180-4, sections 4.2.2
    and 5.3.3), and its functions go bit by bit (section 4.1.2). */
module Sha256Standard {
  import opened Wrappers
  import opened Sha256Spec

  // ---- primes ----------------------------------------------------------------------------------

  const P0: seq<nat> := [2, 3, 5, 7, 11, 13, 17, 19]
  const P1: seq<nat> := [23, 29, 31, 37, 41, 43, 47, 53]
  const P2: seq<nat> := [59, 61, 67, 71, 73, 79, 83, 89]
  const P3: seq<nat> := [97, 101, 103, 107, 109, 113, 127, 131]
  const P4: seq<nat> := [137, 139, 149, 151, 157, 163, 167, 173]
  const P5: seq<nat> := [179, 181, 191, 193, 197, 199, 211, 223]
  const P6: seq<nat> := [227, 229, 233, 239, 241, 251, 257, 263]
  const P7: seq<nat> := [269, 271, 277, 281, 283, 293, 307, 311]

  function Prime(t: nat): nat
    requires t < 64
  {
    if t < 8 then P0[t] else if t < 16 then P1[t - 8] else if t < 24 then P2[t - 16] else if t < 32 then P3[t - 24]
    else if t < 40 then P4[t - 32] else if t < 48 then P5[t - 40] else if t < 56 then P6[t - 48] else P7[t - 56]
  }

  predicate IsPrime(n: nat) { n >= 2 && forall d :: 2 <= d < n ==> n % d != 0 }

  /** A prime factor below the square root of 361. */
  predicate Divided(n: nat) {
    n % 2 == 0 || n % 3 == 0 || n % 5 == 0 || n % 7 == 0 || n % 11 == 0 || n % 13 == 0 || n % 17 == 0
  }

  lemma NoRest(p: nat, k: int, r: nat)
    requires p * k == r && r < p
    ensures r == 0
  {
    Products(p, k);
  }

  lemma Products(a: nat, b: int)
    ensures b >= 1 ==> a * b >= a
    ensures 0 <= b <= 1 ==> a * b <= a
    ensures a >= 19 && b >= 19 ==> a * b >= 361
  {
    if a >= 19 && b >= 19 { assert a * b >= 19 * b; }
  }

  lemma Difference(p: int, m: int, q: int)
    ensures p * m - p * q == p * (m - q)
  {
  }

  lemma {:induction false} MultipleOf(n: nat, p: nat, m: nat)
    requires p > 0 && n == p * m
    ensures n % p == 0
  {
    var q := n / p;
    Difference(p, m, q);
    NoRest(p, m - q, n % p);
  }

  lemma {:induction false} Factor(n: nat, a: nat, b: nat)
    requires n == a * b && 2 <= a <= 18
    ensures Divided(n)
  {
    var p := if a % 2 == 0 then 2 else if a % 3 == 0 then 3 else a;
    var g := a / p;
    assert a == p * g;
    assert n == p * (g * b);
    assert p in [2, 3, 5, 7, 11, 13, 17];
    MultipleOf(n, p, g * b);
  }

  lemma {:induction false} Trial(n: nat)
    requires 17 < n < 361
    ensures IsPrime(n) <==> !Divided(n)
  {
    if d :| 2 <= d < n && n % d == 0 {
      var q := n / d;
      assert n == d * q && n == q * d;
      hide Divided;
      if d <= 18 {
        Factor(n, d, q);
      } else {
        Cofactor(n, d, q);
        Factor(n, q, d);
      }
    }
  }

  lemma {:induction false} Cofactor(n: nat, d: nat, q: nat)
    requires n == d * q && 19 <= d < n < 361
    ensures 2 <= q <= 18
  {
    Products(d, q);
  }

  lemma Sieve0(n: nat)
    requires 17 < n <= 19
    ensures !Divided(n) <==> n in [19]
  {
    match n
    case 18 => case _ =>
  }

  lemma Sieve1(n: nat)
    requires 19 < n <= 37
    ensures !Divided(n) <==> n in [23, 29, 31, 37]
  {
    match n
    case 20 => case 21 => case 22 => case 23 => case 24 => case 25 => case 26 => case 27 => case 28 => case 29 =>
    case 30 => case 31 => case 32 => case 33 => case 34 => case 35 => case 36 => case _ =>
  }

  lemma Sieve1Rest(n: nat)
    requires 37 < n <= 53
    ensures !Divided(n) <==> n in [41, 43, 47, 53]
  {
    match n
    case 38 => case 39 => case 40 => case 41 => case 42 => case 43 => case 44 => case 45 => case 46 => case 47 =>
    case 48 => case 49 => case 50 => case 51 => case 52 => case _ =>
  }

  lemma Sieve2(n: nat)
    requires 53 < n <= 71
    ensures !Divided(n) <==> n in [59, 61, 67, 71]
  {
    match n
    case 54 => case 55 => case 56 => case 57 => case 58 => case 59 => case 60 => case 61 => case 62 => case 63 =>
    case 64 => case 65 => case 66 => case 67 => case 68 => case 69 => case 70 => case _ =>
  }

  lemma Sieve2Rest(n: nat)
    requires 71 < n <= 89
    ensures !Divided(n) <==> n in [73, 79, 83, 89]
  {
    match n
    case 72 => case 73 => case 74 => case 75 => case 76 => case 77 => case 78 => case 79 => case 80 => case 81 =>
    case 82 => case 83 => case 84 => case 85 => case 86 => case 87 => case 88 => case _ =>
  }

  lemma Sieve3(n: nat)
    requires 89 < n <= 109
    ensures !Divided(n) <==> n in [97, 101, 103, 107, 109]
  {
    match n
    case 90 => case 91 => case 92 => case 93 => case 94 => case 95 => case 96 => case 97 => case 98 => case 99 =>
    case 100 => case 101 => case 102 => case 103 => case 104 => case 105 => case 106 => case 107 => case 108 =>
    case _ =>
  }

  lemma Sieve3Rest(n: nat)
    requires 109 < n <= 131
    ensures !Divided(n) <==> n in [113, 127, 131]
  {
    match n
    case 110 => case 111 => case 112 => case 113 => case 114 => case 115 => case 116 => case 117 => case 118 =>
    case 119 => case 120 => case 121 => case 122 => case 123 => case 124 => case 125 => case 126 => case 127 =>
    case 128 => case 129 => case 130 => case _ =>
  }

  lemma Sieve4(n: nat)
    requires 131 < n <= 151
    ensures !Divided(n) <==> n in [137, 139, 149, 151]
  {
    match n
    case 132 => case 133 => case 134 => case 135 => case 136 => case 137 => case 138 => case 139 => case 140 =>
    case 141 => case 142 => case 143 => case 144 => case 145 => case 146 => case 147 => case 148 => case 149 =>
    case 150 => case _ =>
  }

  lemma Sieve4Rest(n: nat)
    requires 151 < n <= 173
    ensures !Divided(n) <==> n in [157, 163, 167, 173]
  {
    match n
    case 152 => case 153 => case 154 => case 155 => case 156 => case 157 => case 158 => case 159 => case 160 =>
    case 161 => case 162 => case 163 => case 164 => case 165 => case 166 => case 167 => case 168 => case 169 =>
    case 170 => case 171 => case 172 => case _ =>
  }

  lemma Sieve5(n: nat)
    requires 173 < n <= 193
    ensures !Divided(n) <==> n in [179, 181, 191, 193]
  {
    match n
    case 174 => case 175 => case 176 => case 177 => case 178 => case 179 => case 180 => case 181 => case 182 =>
    case 183 => case 184 => case 185 => case 186 => case 187 => case 188 => case 189 => case 190 => case 191 =>
    case 192 => case _ =>
  }

  lemma Sieve5Rest(n: nat)
    requires 193 < n <= 223
    ensures !Divided(n) <==> n in [197, 199, 211, 223]
  {
    match n
    case 194 => case 195 => case 196 => case 197 => case 198 => case 199 => case 200 => case 201 => case 202 =>
    case 203 => case 204 => case 205 => case 206 => case 207 => case 208 => case 209 => case 210 => case 211 =>
    case 212 => case 213 => case 214 => case 215 => case 216 => case 217 => case 218 => case 219 => case 220 =>
    case 221 => case 222 => case _ =>
  }

  lemma Sieve6(n: nat)
    requires 223 < n <= 239
    ensures !Divided(n) <==> n in [227, 229, 233, 239]
  {
    match n
    case 224 => case 225 => case 226 => case 227 => case 228 => case 229 => case 230 => case 231 => case 232 =>
    case 233 => case 234 => case 235 => case 236 => case 237 => case 238 => case _ =>
  }

  lemma Sieve6Rest(n: nat)
    requires 239 < n <= 263
    ensures !Divided(n) <==> n in [241, 251, 257, 263]
  {
    match n
    case 240 => case 241 => case 242 => case 243 => case 244 => case 245 => case 246 => case 247 => case 248 =>
    case 249 => case 250 => case 251 => case 252 => case 253 => case 254 => case 255 => case 256 => case 257 =>
    case 258 => case 259 => case 260 => case 261 => case 262 => case _ =>
  }

  lemma Sieve7(n: nat)
    requires 263 < n <= 283
    ensures !Divided(n) <==> n in [269, 271, 277, 281, 283]
  {
    match n
    case 264 => case 265 => case 266 => case 267 => case 268 => case 269 => case 270 => case 271 => case 272 =>
    case 273 => case 274 => case 275 => case 276 => case 277 => case 278 => case 279 => case 280 => case 281 =>
    case 282 => case _ =>
  }

  lemma Sieve7Rest(n: nat)
    requires 283 < n <= 311
    ensures !Divided(n) <==> n in [293, 307, 311]
  {
    match n
    case 284 => case 285 => case 286 => case 287 => case 288 => case 289 => case 290 => case 291 => case 292 =>
    case 293 => case 294 => case 295 => case 296 => case 297 => case 298 => case 299 => case 300 => case 301 =>
    case 302 => case 303 => case 304 => case 305 => case 306 => case 307 => case 308 => case 309 => case 310 =>
    case _ =>
  }

  /** The primes below 18. */
  lemma SmallPrimes(n: nat)
    requires n <= 17
    ensures IsPrime(n) <==> n in [2, 3, 5, 7, 11, 13, 17]
  {
    if n == 4 || n == 6 || n == 8 || n == 10 || n == 12 || n == 14 || n == 16 {
      assert n % 2 == 0;
    } else if n == 9 || n == 15 {
      assert n % 3 == 0;
    }
  }

  predicate Listed(n: nat) {
    n in P0 || n in P1 || n in P2 || n in P3 || n in P4 || n in P5 || n in P6 || n in P7
  }

  /** Up to the last of them, the listed numbers are the primes, and they ascend. */
  lemma ListedArePrimes(n: nat)
    requires n <= 311
    ensures IsPrime(n) <==> Listed(n)
  {
    hide IsPrime, Divided;
    if n <= 17 {
      SmallPrimes(n);
    } else {
      Trial(n);
      if n <= 19 {
        Sieve0(n);
      } else if n <= 37 {
        Sieve1(n);
      } else if n <= 53 {
        Sieve1Rest(n);
      } else if n <= 71 {
        Sieve2(n);
      } else if n <= 89 {
        Sieve2Rest(n);
      } else if n <= 109 {
        Sieve3(n);
      } else if n <= 131 {
        Sieve3Rest(n);
      } else if n <= 151 {
        Sieve4(n);
      } else if n <= 173 {
        Sieve4Rest(n);
      } else if n <= 193 {
        Sieve5(n);
      } else if n <= 223 {
        Sieve5Rest(n);
      } else if n <= 239 {
        Sieve6(n);
      } else if n <= 263 {
        Sieve6Rest(n);
      } else if n <= 283 {
        Sieve7(n);
      } else {
        Sieve7Rest(n);
      }
    }
  }

  /** The t-th prime: a prime, and with t primes before it, since the list ascends. */
  lemma {:induction false} PrimesAscend(s: nat, t: nat)
    requires s <= t < 64
    ensures IsPrime(Prime(s)) && (s < t ==> Prime(s) < Prime(t))
    decreases t
  {
    ListedPrime(s);
    ListedArePrimes(Prime(s));
    hide IsPrime;
    if s + 1 < t { PrimesAscend(s, t - 1); }
    if s < t { NextPrime(t - 1); }
  }

  lemma ListedPrime(t: nat)
    requires t < 64
    ensures Listed(Prime(t)) && Prime(t) <= 311
  {
    if t < 8 {
      Row(P0, t);
    } else if t < 16 {
      Row(P1, t - 8);
    } else if t < 24 {
      Row(P2, t - 16);
    } else if t < 32 {
      Row(P3, t - 24);
    } else if t < 40 {
      Row(P4, t - 32);
    } else if t < 48 {
      Row(P5, t - 40);
    } else if t < 56 {
      Row(P6, t - 48);
    } else {
      Row(P7, t - 56);
    }
  }

  lemma Row(ps: seq<nat>, j: nat)
    requires j < |ps| == 8
    requires ps[0] <= 311 && ps[1] <= 311 && ps[2] <= 311 && ps[3] <= 311
    requires ps[4] <= 311 && ps[5] <= 311 && ps[6] <= 311 && ps[7] <= 311
    ensures ps[j] in ps && ps[j] <= 311
  {
  }

  lemma NextPrime(t: nat)
    requires t < 63
    ensures Prime(t) < Prime(t + 1)
  {
  }

  // ---- sections 4.2.2 and 5.3.3 ----------------------------------------------------------------

  function Cube(n: nat): nat { n * n * n }

  /** n is the cube root of p, times 2^32 and rounded down, and k is the first 32 bits of its fraction. */
  predicate IsCubeRoot(n: nat, p: nat, k: word) {
    n % 0x1_0000_0000 == k as nat && Cube(n) <= p * 0x1_0000_0000_0000_0000_0000_0000 < Cube(n + 1)
  }

  predicate IsSquareRoot(n: nat, p: nat, h: word) {
    n % 0x1_0000_0000 == h as nat && n * n <= p * 0x1_0000_0000_0000_0000 < (n + 1) * (n + 1)
  }

  lemma CubeRoots0(j: nat) returns (n: nat)
    requires j < 8
    ensures |P0| == |K0| == 8 && IsCubeRoot(n, P0[j], K0[j])
  {
    match j
    case 0 => n := 0x1_428a_2f98;
    case 1 => n := 0x1_7137_4491;
    case 2 => n := 0x1_b5c0_fbcf;
    case 3 => n := 0x1_e9b5_dba5;
    case 4 => n := 0x2_3956_c25b;
    case 5 => n := 0x2_59f1_11f1;
    case 6 => n := 0x2_923f_82a4;
    case _ => n := 0x2_ab1c_5ed5;
  }

  lemma CubeRoots1(j: nat) returns (n: nat)
    requires j < 8
    ensures |P1| == |K1| == 8 && IsCubeRoot(n, P1[j], K1[j])
  {
    match j
    case 0 => n := 0x2_d807_aa98;
    case 1 => n := 0x3_1283_5b01;
    case 2 => n := 0x3_2431_85be;
    case 3 => n := 0x3_550c_7dc3;
    case 4 => n := 0x3_72be_5d74;
    case 5 => n := 0x3_80de_b1fe;
    case 6 => n := 0x3_9bdc_06a7;
    case _ => n := 0x3_c19b_f174;
  }

  lemma CubeRoots2(j: nat) returns (n: nat)
    requires j < 8
    ensures |P2| == |K2| == 8 && IsCubeRoot(n, P2[j], K2[j])
  {
    match j
    case 0 => n := 0x3_e49b_69c1;
    case 1 => n := 0x3_efbe_4786;
    case 2 => n := 0x4_0fc1_9dc6;
    case 3 => n := 0x4_240c_a1cc;
    case 4 => n := 0x4_2de9_2c6f;
    case 5 => n := 0x4_4a74_84aa;
    case 6 => n := 0x4_5cb0_a9dc;
    case _ => n := 0x4_76f9_88da;
  }

  lemma CubeRoots3(j: nat) returns (n: nat)
    requires j < 8
    ensures |P3| == |K3| == 8 && IsCubeRoot(n, P3[j], K3[j])
  {
    match j
    case 0 => n := 0x4_983e_5152;
    case 1 => n := 0x4_a831_c66d;
    case 2 => n := 0x4_b003_27c8;
    case 3 => n := 0x4_bf59_7fc7;
    case 4 => n := 0x4_c6e0_0bf3;
    case 5 => n := 0x4_d5a7_9147;
    case 6 => n := 0x5_06ca_6351;
    case _ => n := 0x5_1429_2967;
  }

  lemma CubeRoots4(j: nat) returns (n: nat)
    requires j < 8
    ensures |P4| == |K4| == 8 && IsCubeRoot(n, P4[j], K4[j])
  {
    match j
    case 0 => n := 0x5_27b7_0a85;
    case 1 => n := 0x5_2e1b_2138;
    case 2 => n := 0x5_4d2c_6dfc;
    case 3 => n := 0x5_5338_0d13;
    case 4 => n := 0x5_650a_7354;
    case 5 => n := 0x5_766a_0abb;
    case 6 => n := 0x5_81c2_c92e;
    case _ => n := 0x5_9272_2c85;
  }

  lemma CubeRoots5(j: nat) returns (n: nat)
    requires j < 8
    ensures |P5| == |K5| == 8 && IsCubeRoot(n, P5[j], K5[j])
  {
    match j
    case 0 => n := 0x5_a2bf_e8a1;
    case 1 => n := 0x5_a81a_664b;
    case 2 => n := 0x5_c24b_8b70;
    case 3 => n := 0x5_c76c_51a3;
    case 4 => n := 0x5_d192_e819;
    case 5 => n := 0x5_d699_0624;
    case 6 => n := 0x5_f40e_3585;
    case _ => n := 0x6_106a_a070;
  }

  lemma CubeRoots6(j: nat) returns (n: nat)
    requires j < 8
    ensures |P6| == |K6| == 8 && IsCubeRoot(n, P6[j], K6[j])
  {
    match j
    case 0 => n := 0x6_19a4_c116;
    case 1 => n := 0x6_1e37_6c08;
    case 2 => n := 0x6_2748_774c;
    case 3 => n := 0x6_34b0_bcb5;
    case 4 => n := 0x6_391c_0cb3;
    case 5 => n := 0x6_4ed8_aa4a;
    case 6 => n := 0x6_5b9c_ca4f;
    case _ => n := 0x6_682e_6ff3;
  }

  lemma CubeRoots7(j: nat) returns (n: nat)
    requires j < 8
    ensures |P7| == |K7| == 8 && IsCubeRoot(n, P7[j], K7[j])
  {
    match j
    case 0 => n := 0x6_748f_82ee;
    case 1 => n := 0x6_78a5_636f;
    case 2 => n := 0x6_84c8_7814;
    case 3 => n := 0x6_8cc7_0208;
    case 4 => n := 0x6_90be_fffa;
    case 5 => n := 0x6_a450_6ceb;
    case 6 => n := 0x6_bef9_a3f7;
    case _ => n := 0x6_c671_78f2;
  }

  /** Each round constant is the first 32 bits of the fraction of the cube root of its prime. */
  lemma RoundConstants(t: nat) returns (n: nat)
    requires t < 64
    ensures IsCubeRoot(n, Prime(t), K(t))
  {
    hide IsCubeRoot;
    if t < 8 {
      n := CubeRoots0(t - 0);
    } else if t < 16 {
      n := CubeRoots1(t - 8);
    } else if t < 24 {
      n := CubeRoots2(t - 16);
    } else if t < 32 {
      n := CubeRoots3(t - 24);
    } else if t < 40 {
      n := CubeRoots4(t - 32);
    } else if t < 48 {
      n := CubeRoots5(t - 40);
    } else if t < 56 {
      n := CubeRoots6(t - 48);
    } else {
      n := CubeRoots7(t - 56);
    }
  }

  /** Each initial word is the first 32 bits of the fraction of the square root of its prime. */
  lemma InitialWords(t: nat) returns (n: nat)
    requires t < 8
    ensures |H0| == 8 && IsSquareRoot(n, Prime(t), H0[t])
  {
    match t
    case 0 => n := 0x1_6a09_e667;
    case 1 => n := 0x1_bb67_ae85;
    case 2 => n := 0x2_3c6e_f372;
    case 3 => n := 0x2_a54f_f53a;
    case 4 => n := 0x3_510e_527f;
    case 5 => n := 0x3_9b05_688c;
    case 6 => n := 0x4_1f83_d9ab;
    case _ => n := 0x4_5be0_cd19;
  }

  // ---- section 4.1.2 ---------------------------------------------------------------------------

  /** Wherever x has only ones, Ch is y, and wherever it has only zeros, z: m is any choice of places. */
  lemma ChChooses(x: word, y: word, z: word, m: word)
    ensures x & m == m ==> Ch(x, y, z) & m == y & m
    ensures x & m == 0 ==> Ch(x, y, z) & m == z & m
  {
  }

  /** Wherever two of them agree, Maj is what they agree on. */
  lemma MajIsMajority(x: word, y: word, z: word, m: word)
    ensures x & m == y & m || x & m == z & m ==> Maj(x, y, z) & m == x & m
    ensures y & m == z & m ==> Maj(x, y, z) & m == y & m
  {
  }

  // The bits of a word, from the right and on and on around the end.

  function Low(x: word): word { x & 1 }
  function TurnOne(x: word): word { (x >> 1) | (x << 31) }

  /** Turned to the right by so many places. */
  function Turn(x: word, n: nat): word
    decreases n
  {
    if n == 0 then x else Turn(TurnOne(x), n - 1)
  }

  function Bit(x: word, i: nat): word { Low(Turn(x, i)) }

  /** Bits are zero or one, and after the last comes the first. */
  lemma {:induction false} BitsGoAround(x: word, i: nat)
    ensures Bit(x, i) in [0, 1] && Bit(x, i + 32) == Bit(x, i)
  {
    LowIsBit(Turn(x, i));
    hide TurnOne, Low;
    WholeTurn(x);
    TurnOn(x, 32, i);
  }

  lemma LowIsBit(x: word)
    ensures Low(x) in [0, 1]
  {
  }

  lemma XorTurns(x: word, y: word)
    ensures TurnOne(Xor(x, y)) == Xor(TurnOne(x), TurnOne(y))
  {
  }

  lemma XorLow(x: word, y: word)
    ensures Low(Xor(x, y)) == Xor(Low(x), Low(y))
  {
  }

  lemma {:induction false} XorBits(x: word, y: word, i: nat)
    ensures Bit(Xor(x, y), i) == Xor(Bit(x, i), Bit(y, i))
    decreases i
  {
    hide Xor, TurnOne, Low;
    XorTurns(x, y);
    XorLow(x, y);
    if i > 0 { XorBits(TurnOne(x), TurnOne(y), i - 1); }
  }

  lemma {:induction false} TurnOn(x: word, m: nat, n: nat)
    ensures Turn(Turn(x, m), n) == Turn(x, m + n)
    decreases m
  {
    hide TurnOne;
    if m > 0 { TurnOn(TurnOne(x), m - 1, n); }
  }

  lemma Turns2(x: word)
    ensures Rotr2(x) == Turn(x, 2)
  {
  }

  lemma Turns6(x: word)
    ensures Rotr6(x) == Turn(x, 6)
  {
  }

  lemma Turns7(x: word)
    ensures Rotr7(x) == Turn(x, 7)
  {
  }

  lemma Composed11(x: word)
    ensures Rotr11(x) == Rotr2(Rotr2(Rotr7(x)))
  {
  }

  lemma Turns11(x: word)
    ensures Rotr11(x) == Turn(x, 11)
  {
    hide Rotr2, Rotr7, Rotr11, TurnOne;
    Composed11(x);
    Turns7(x);
    Turns2(Rotr7(x));
    TurnOn(x, 7, 2);
    Turns2(Rotr2(Rotr7(x)));
    TurnOn(x, 9, 2);
  }

  lemma Composed13(x: word)
    ensures Rotr13(x) == Rotr7(Rotr6(x))
  {
  }

  lemma Turns13(x: word)
    ensures Rotr13(x) == Turn(x, 13)
  {
    hide Rotr6, Rotr7, Rotr13, TurnOne;
    Composed13(x);
    Turns6(x);
    Turns7(Rotr6(x));
    TurnOn(x, 6, 7);
  }

  lemma Composed17(x: word)
    ensures Rotr17(x) == Rotr11(Rotr6(x))
  {
  }

  lemma Turns17(x: word)
    ensures Rotr17(x) == Turn(x, 17)
  {
    hide Rotr6, Rotr11, Rotr17, TurnOne;
    Composed17(x);
    Turns6(x);
    Turns11(Rotr6(x));
    TurnOn(x, 6, 11);
  }

  lemma Composed18(x: word)
    ensures Rotr18(x) == Rotr11(Rotr7(x))
  {
  }

  lemma Turns18(x: word)
    ensures Rotr18(x) == Turn(x, 18)
  {
    hide Rotr7, Rotr11, Rotr18, TurnOne;
    Composed18(x);
    Turns7(x);
    Turns11(Rotr7(x));
    TurnOn(x, 7, 11);
  }

  lemma Composed19(x: word)
    ensures Rotr19(x) == Rotr13(Rotr6(x))
  {
  }

  lemma Turns19(x: word)
    ensures Rotr19(x) == Turn(x, 19)
  {
    hide Rotr6, Rotr13, Rotr19, TurnOne;
    Composed19(x);
    Turns6(x);
    Turns13(Rotr6(x));
    TurnOn(x, 6, 13);
  }

  lemma Composed22(x: word)
    ensures Rotr22(x) == Rotr11(Rotr11(x))
  {
  }

  lemma Turns22(x: word)
    ensures Rotr22(x) == Turn(x, 22)
  {
    hide Rotr11, Rotr22, TurnOne;
    Composed22(x);
    Turns11(x);
    Turns11(Rotr11(x));
    TurnOn(x, 11, 11);
  }

  lemma Composed25(x: word)
    ensures Rotr25(x) == Rotr19(Rotr6(x))
  {
  }

  lemma Turns25(x: word)
    ensures Rotr25(x) == Turn(x, 25)
  {
    hide Rotr6, Rotr19, Rotr25, TurnOne;
    Composed25(x);
    Turns6(x);
    Turns19(Rotr6(x));
    TurnOn(x, 6, 19);
  }

  lemma WholeTurn(x: word)
    ensures Turn(x, 32) == x
  {
    hide Rotr7, Rotr25, TurnOne;
    Composed32(x);
    Turns7(x);
    Turns25(Rotr7(x));
    TurnOn(x, 7, 25);
  }

  lemma Composed32(x: word)
    ensures Rotr25(Rotr7(x)) == x
  {
  }

  /** A shift to the right is a turn once the bits that it takes off are cleared. */
  lemma Shr3Turns(x: word)
    ensures Shr3(x) == Turn(x & 0xffff_fff8, 3)
  {
    Turned3(x & 0xffff_fff8);
    hide Turn;
    Shifted3(x);
  }

  lemma Turned3(x: word)
    ensures Turn(x, 3) == (x >> 3) | (x << 29)
  {
  }

  lemma Shifted3(x: word)
    ensures x >> 3 == ((x & 0xffff_fff8) >> 3) | ((x & 0xffff_fff8) << 29)
  {
  }

  lemma Shr10Turns(x: word)
    ensures Shr10(x) == Turn(x & 0xffff_fc00, 10)
  {
    Turned10(x & 0xffff_fc00);
    hide Turn;
    Shifted10(x);
  }

  lemma Turned10(x: word)
    ensures Turn(x, 10) == (x >> 10) | (x << 22)
  {
    Turned3(x);
    Composed10(x);
    Turns7((x >> 3) | (x << 29));
    hide Rotr7, TurnOne;
    TurnOn(x, 3, 7);
  }

  lemma Composed10(x: word)
    ensures (x >> 10) | (x << 22) == Rotr7((x >> 3) | (x << 29))
  {
  }

  lemma Shifted10(x: word)
    ensures x >> 10 == ((x & 0xffff_fc00) >> 10) | ((x & 0xffff_fc00) << 22)
  {
  }

  /** A bit of a large sigma is the sum without carry of three bits of x, so many places on. */
  lemma BigSigma0Bits(x: word, i: nat)
    ensures Bit(BigSigma0(x), i) == Xor(Xor(Bit(x, i + 2), Bit(x, i + 13)), Bit(x, i + 22))
  {
    hide Xor, TurnOne, Rotr2, Rotr13, Rotr22, Low;
    XorBits(Xor(Rotr2(x), Rotr13(x)), Rotr22(x), i);
    XorBits(Rotr2(x), Rotr13(x), i);
    Turns2(x);
    TurnOn(x, 2, i);
    Turns13(x);
    TurnOn(x, 13, i);
    Turns22(x);
    TurnOn(x, 22, i);
  }

  /** A bit of a large sigma is the sum without carry of three bits of x, so many places on. */
  lemma BigSigma1Bits(x: word, i: nat)
    ensures Bit(BigSigma1(x), i) == Xor(Xor(Bit(x, i + 6), Bit(x, i + 11)), Bit(x, i + 25))
  {
    hide Xor, TurnOne, Rotr6, Rotr11, Rotr25, Low;
    XorBits(Xor(Rotr6(x), Rotr11(x)), Rotr25(x), i);
    XorBits(Rotr6(x), Rotr11(x), i);
    Turns6(x);
    TurnOn(x, 6, i);
    Turns11(x);
    TurnOn(x, 11, i);
    Turns25(x);
    TurnOn(x, 25, i);
  }

  /** In a small sigma the third is shifted: the last three bits of x do not come around. */
  lemma SmallSigma0Bits(x: word, i: nat)
    ensures Bit(SmallSigma0(x), i) == Xor(Xor(Bit(x, i + 7), Bit(x, i + 18)), Bit(x & 0xffff_fff8, i + 3))
  {
    Shr3Turns(x);
    hide Xor, TurnOne, Rotr7, Rotr18, Shr3, Low;
    XorBits(Xor(Rotr7(x), Rotr18(x)), Shr3(x), i);
    XorBits(Rotr7(x), Rotr18(x), i);
    TurnOn(x & 0xffff_fff8, 3, i);
    Turns7(x);
    TurnOn(x, 7, i);
    Turns18(x);
    TurnOn(x, 18, i);
  }

  /** In a small sigma the third is shifted: the last ten bits of x do not come around. */
  lemma SmallSigma1Bits(x: word, i: nat)
    ensures Bit(SmallSigma1(x), i) == Xor(Xor(Bit(x, i + 17), Bit(x, i + 19)), Bit(x & 0xffff_fc00, i + 10))
  {
    Shr10Turns(x);
    hide Xor, TurnOne, Rotr17, Rotr19, Shr10, Low;
    XorBits(Xor(Rotr17(x), Rotr19(x)), Shr10(x), i);
    XorBits(Rotr17(x), Rotr19(x), i);
    TurnOn(x & 0xffff_fc00, 10, i);
    Turns17(x);
    TurnOn(x, 17, i);
    Turns19(x);
    TurnOn(x, 19, i);
  }

  // ---- section 5.1.1 ---------------------------------------------------------------------------

  /** The number that digits below 256 spell, the most significant first. */
  function Spelled(ds: seq<nat>): nat {
    if ds == [] then 0 else 256 * Spelled(ds[..|ds| - 1]) + ds[|ds| - 1]
  }

  function Power(size: nat): nat { if size == 0 then 1 else 256 * Power(size - 1) }

  /** The length of the message is spelled out by the last bytes of its padding. */
  lemma {:induction false} BigEndianSpells(n: nat, size: nat) returns (ds: seq<nat>)
    requires n < Power(size)
    ensures |ds| == size && Spelled(ds) == n
    ensures forall k :: 0 <= k < size ==> ds[k] < 256 && BigEndian(n, size)[k] == ds[k] as byte
  {
    ds := [];
    if size > 0 {
      var most := BigEndianSpells(n / 256, size - 1);
      ds := most + [n % 256];
      assert ds[..size - 1] == most;
    }
  }
}
