/**
 * generateSKU of the inventory module: the first word of the product name
 * and the model code, both trimmed and upper-cased, and four characters of
 * a random base-36 number, joined by hyphens.  The random number is an
 * input here: `base36` is what `Math.random().toString(36)` returned.
 */
module InventorySku {
  import opened Ascii

  /** `s.split(/\s+/)[0]`: the longest prefix of `s` without white space. */
  function FirstToken(s: string): (r: string)
    ensures |r| <= |s| && r == s[..|r|]
    ensures NoSpace(r)
    ensures |r| < |s| ==> IsSpace(s[|r|])
  {
    if s == [] || IsSpace(s[0]) then []
    else
      var rest := FirstToken(s[1..]);
      assert s[1..][..|rest|] == s[1..|rest| + 1];
      [s[0]] + rest
  }

  /** `s.substring(from, to)` for `from <= to`: both ends are cut at the length of `s`. */
  function Substring(s: string, from: nat, to: nat): (r: string)
    requires from <= to
    ensures |r| <= to - from
  {
    var a := if from < |s| then from else |s|;
    var b := if to < |s| then to else |s|;
    s[a..b]
  }

  /** The product part: the first word of the trimmed name, upper-cased. */
  function ProductPart(productName: string): string {
    Upper(FirstToken(Trim(productName)))
  }

  /** The model part: the trimmed model code, upper-cased. */
  function ModelPart(modelCode: string): string {
    Upper(Trim(modelCode))
  }

  /** The random part: characters 2 to 5 of the base-36 text (after its `0.`), upper-cased. */
  function RandomPart(base36: string): string {
    Upper(Substring(base36, 2, 6))
  }

  /** `generateSKU(productName, modelCode)` with the random number's text given. */
  function GenerateSku(productName: string, modelCode: string, base36: string): string {
    ProductPart(productName) + "-" + ModelPart(modelCode) + "-" + RandomPart(base36)
  }

  /**
   * The product part is one upper-case word: no white space, no lower-case
   * letter, and the upper-cased start of the trimmed name, stopping at the
   * first white space.
   */
  lemma ProductPartIsFirstWord(productName: string)
    ensures var a := ProductPart(productName);
      var t := Upper(Trim(productName));
      && NoSpace(a) && NoLower(a)
      && a == t[..|a|]
      && (|a| < |t| ==> IsSpace(t[|a|]))
  {
    var w := FirstToken(Trim(productName));
    var a := Upper(w);
    var t := Upper(Trim(productName));
    forall i | 0 <= i < |a|
      ensures !IsSpace(a[i]) && a[i] == t[i]
    {
      assert a[i] == ToUpper(w[i]);
    }
    if |a| < |t| {
      assert t[|a|] == ToUpper(Trim(productName)[|w|]);
    }
  }

  /** The random part has at most four characters, and none is a lower-case letter. */
  lemma RandomPartShape(base36: string)
    ensures |RandomPart(base36)| <= 4 && NoLower(RandomPart(base36))
    ensures |base36| >= 6 ==> RandomPart(base36) == Upper(base36[2..6])
  {
  }

  lemma NoLowerAppend(a: string, b: string)
    requires NoLower(a) && NoLower(b)
    ensures NoLower(a + b)
  {
    assert forall i :: |a| <= i < |a + b| ==> (a + b)[i] == b[i - |a|];
  }

  /** The SKU has no lower-case letter. */
  lemma GenerateSkuIsUpperCase(productName: string, modelCode: string, base36: string)
    ensures NoLower(GenerateSku(productName, modelCode, base36))
  {
    ProductPartIsFirstWord(productName);
    var a := ProductPart(productName);
    var b := ModelPart(modelCode);
    var r := RandomPart(base36);
    NoLowerAppend(a, "-");
    NoLowerAppend(a + "-", b);
    NoLowerAppend(a + "-" + b, "-");
    NoLowerAppend(a + "-" + b + "-", r);
  }

  /**
   * The SKU starts with the product part and a hyphen and ends with a hyphen
   * and the random part; between them is the model part.
   */
  lemma GenerateSkuParts(productName: string, modelCode: string, base36: string)
    ensures var s := GenerateSku(productName, modelCode, base36);
      var a := ProductPart(productName);
      var b := ModelPart(modelCode);
      var r := RandomPart(base36);
      && |s| == |a| + |b| + |r| + 2
      && s[..|a| + 1] == a + "-"
      && s[|a| + 1..|a| + 1 + |b|] == b
      && s[|s| - |r| - 1..] == "-" + r
  {
    JoinParts(ProductPart(productName), ModelPart(modelCode), RandomPart(base36));
  }

  /** The slices of `a-b-r`. */
  lemma JoinParts(a: string, b: string, r: string)
    ensures var s := a + "-" + b + "-" + r;
      && |s| == |a| + |b| + |r| + 2
      && s[..|a| + 1] == a + "-"
      && s[|a| + 1..|a| + 1 + |b|] == b
      && s[|s| - |r| - 1..] == "-" + r
  {
    var s := a + "-" + b + "-" + r;
    assert s == (a + "-") + b + ("-" + r);
  }

  /* ---------- case and padding ---------- */

  lemma LowerTail(s: string)
    requires s != []
    ensures Lower(s)[0] == ToLower(s[0]) && Lower(s)[1..] == Lower(s[1..])
    ensures Lower(s)[|s| - 1] == ToLower(s[|s| - 1]) && Lower(s)[..|s| - 1] == Lower(s[..|s| - 1])
  {
  }

  /** Changing the case of a letter never makes or removes white space. */
  lemma SpaceLower(c: char)
    ensures IsSpace(ToLower(c)) <==> IsSpace(c)
  {
  }

  lemma {:induction false} TrimStartLower(s: string)
    ensures TrimStart(Lower(s)) == Lower(TrimStart(s))
  {
    if s != [] {
      var t := Lower(s);
      LowerTail(s);
      SpaceLower(s[0]);
      if IsSpace(s[0]) {
        TrimStartLower(s[1..]);
        assert TrimStart(t) == TrimStart(t[1..]);
        assert TrimStart(s) == TrimStart(s[1..]);
      } else {
        assert TrimStart(t) == t;
        assert TrimStart(s) == s;
      }
    }
  }

  lemma {:induction false} TrimEndLower(s: string)
    ensures TrimEnd(Lower(s)) == Lower(TrimEnd(s))
  {
    if s != [] {
      LowerTail(s);
      SpaceLower(s[|s| - 1]);
      if IsSpace(s[|s| - 1]) {
        TrimEndLower(s[..|s| - 1]);
      }
    }
  }

  lemma TrimLower(s: string)
    ensures Trim(Lower(s)) == Lower(Trim(s))
  {
    TrimStartLower(s);
    TrimEndLower(TrimStart(s));
  }

  lemma {:induction false} FirstTokenLower(s: string)
    ensures FirstToken(Lower(s)) == Lower(FirstToken(s))
  {
    if s != [] {
      LowerTail(s);
      SpaceLower(s[0]);
      if !IsSpace(s[0]) {
        FirstTokenLower(s[1..]);
        FirstTokenCons(s);
        FirstTokenCons(Lower(s));
        LowerCons(s[0], FirstToken(s[1..]));
      }
    }
  }

  lemma FirstTokenCons(s: string)
    requires s != [] && !IsSpace(s[0])
    ensures FirstToken(s) == [s[0]] + FirstToken(s[1..])
  {
  }

  lemma LowerCons(c: char, t: string)
    ensures Lower([c] + t) == [ToLower(c)] + Lower(t)
  {
    assert forall i :: 0 <= i < |t| ==> ([c] + t)[i + 1] == t[i];
  }

  lemma UpperOfLower(s: string)
    ensures Upper(Lower(s)) == Upper(s)
  {
  }

  /** The letter case of the name and the model code does not change the SKU. */
  lemma GenerateSkuIgnoresCase(productName: string, modelCode: string, base36: string)
    ensures GenerateSku(Lower(productName), Lower(modelCode), base36) == GenerateSku(productName, modelCode, base36)
  {
    TrimLower(productName);
    FirstTokenLower(Trim(productName));
    UpperOfLower(FirstToken(Trim(productName)));
    TrimLower(modelCode);
    UpperOfLower(Trim(modelCode));
  }

  /** White space around the name and the model code does not change the SKU. */
  lemma GenerateSkuIgnoresPadding(productName: string, modelCode: string, base36: string)
    ensures GenerateSku(Trim(productName), Trim(modelCode), base36) == GenerateSku(productName, modelCode, base36)
  {
    TrimIdempotent(productName);
    TrimIdempotent(modelCode);
  }

  lemma TrimIdempotent(s: string)
    ensures Trim(Trim(s)) == Trim(s)
  {
    TrimIsSlice(s);
    TrimNoSpace(Trim(s));
  }

  /** A name of white space only gives an empty product part, so the SKU starts with a hyphen. */
  lemma BlankNameSku(productName: string, modelCode: string, base36: string)
    requires forall i :: 0 <= i < |productName| ==> IsSpace(productName[i])
    ensures GenerateSku(productName, modelCode, base36)[0] == '-'
  {
    assert Trim(productName) == [] by {
      TrimIsSlice(productName);
    }
  }

  /** The first token of a word followed by white space is that word. */
  lemma {:induction false} FirstTokenOfWord(w: string, rest: string)
    requires NoSpace(w) && rest != [] && IsSpace(rest[0])
    ensures FirstToken(w + rest) == w
  {
    if w == [] {
      assert w + rest == rest;
    } else {
      assert (w + rest)[1..] == w[1..] + rest;
      FirstTokenOfWord(w[1..], rest);
      assert w == [w[0]] + w[1..];
    }
  }

  /** A name that is a word, white space and more text, with no padding, gives that word upper-cased. */
  lemma ProductPartOfName(w: string, rest: string)
    requires w != [] && NoSpace(w) && rest != [] && IsSpace(rest[0]) && !IsSpace(rest[|rest| - 1])
    ensures ProductPart(w + rest) == Upper(w)
  {
    var s := w + rest;
    assert s[0] == w[0] && s[|s| - 1] == rest[|rest| - 1];
    TrimNoSpace(s);
    FirstTokenOfWord(w, rest);
  }

  /* ---------- the parts of `generateSKU("Galaxy S24", "sm-s921")` with random text `0.k3f9q2` ---------- */

  /** The product part of `Galaxy S24` is `GALAXY`. */
  lemma ProductPartExample()
    ensures ProductPart("Galaxy S24") == "GALAXY"
  {
    var w, rest := "Galaxy", " S24";
    assert NoSpace(w) && IsSpace(rest[0]) && !IsSpace(rest[|rest| - 1]);
    assert w + rest == "Galaxy S24";
    ProductPartOfName(w, rest);
    assert Upper(w) == "GALAXY";
  }

  /** The model part of `sm-s921` is `SM-S921`. */
  lemma ModelPartExample()
    ensures ModelPart("sm-s921") == "SM-S921"
  {
    TrimNoSpace("sm-s921");
  }

  /** The random part of `0.k3f9q2` is `K3F9`. */
  lemma RandomPartExample()
    ensures RandomPart("0.k3f9q2") == "K3F9"
  {
    assert Substring("0.k3f9q2", 2, 6) == "k3f9";
  }
}
