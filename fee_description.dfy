/**
 * The DESCRIPTION column (`generate_description`): a closed catalogue of fee
 * types, each with a billing label, followed by the item barcode, cut to the
 * thirty characters the bursar's column holds.
 */
module FeeDescriptions {
  import opened Wrappers
  import opened Strings

  /** Width of the bursar's DESCRIPTION column. */
  const DescriptionLimit: nat := 30

  /** The fee types that have a billing label, in the order the source tests them. */
  const KnownFeeTypes: seq<string> :=
    ["DAMAGEDITEMFINE", "LOSTITEMPROCESSFEE", "LOSTITEMREPLACEMENTFEE",
     "OVERDUEFINE", "OTHER", "RECALLEDOVERDUEFINE"]

  /** The billing label of a fee type, or nothing for a type outside the catalogue. */
  function FeeLabel(feeType: string): (mapped: Option<string>)
    ensures mapped.Some? <==> feeType in KnownFeeTypes
    ensures mapped.Some? ==> 12 <= |mapped.value| <= 16
  {
    if feeType == "DAMAGEDITEMFINE" then Some("Library damaged")
    else if feeType == "LOSTITEMPROCESSFEE" then Some("Library lost")
    else if feeType == "LOSTITEMREPLACEMENTFEE" then Some("Library repl")
    else if feeType == "OVERDUEFINE" then Some("Library overdue")
    else if feeType == "OTHER" then Some("Library other")
    else if feeType == "RECALLEDOVERDUEFINE" then Some("Library recalled")
    else None
  }

  /** The `ValueError` raised for a fee type outside the catalogue; its text keeps the source's spelling. */
  datatype DescriptionError = UnrecognizedFeeType(feeType: string) {
    function Message(): (text: string)
      ensures |text| >= |feeType| && text[|text| - |feeType|..] == feeType
    {
      "Unrecoginzed fine fee type: " + feeType
    }
  }

  /** Python's `s[:limit]`. */
  function Truncate(s: string, limit: nat): (r: string)
    ensures |r| == Min(limit, |s|) && r == s[..|r|]
  {
    if |s| <= limit then s else s[..limit]
  }

  /** `generate_description(fine_fee_type, barcode)`. */
  function GenerateDescription(feeType: string, barcode: string): (r: Result<string, DescriptionError>)
    ensures r.Failure? <==> feeType !in KnownFeeTypes
    ensures r.Failure? ==> r.error == UnrecognizedFeeType(feeType)
    ensures r.Success? ==>
              var full := FeeLabel(feeType).value + " " + barcode;
              |r.value| == Min(DescriptionLimit, |full|) && r.value == full[..|r.value|]
  {
    var mapped := FeeLabel(feeType);
    if mapped.None? then Failure(UnrecognizedFeeType(feeType))
    else Success(Truncate(mapped.value + " " + barcode, DescriptionLimit))
  }

  /** Reads a description back: the fee type whose label it starts with, and what follows the label. */
  function DecodeDescription(description: string): Option<(string, string)>
  {
    DecodeWith(description, KnownFeeTypes)
  }

  /** The start a description of a known fee type always has: its label and a space. */
  function LabelHead(feeType: string): string
    requires feeType in KnownFeeTypes
  {
    FeeLabel(feeType).value + " "
  }

  function DecodeWith(description: string, feeTypes: seq<string>): Option<(string, string)>
    requires forall t <- feeTypes :: t in KnownFeeTypes
  {
    if feeTypes == [] then None
    else if StartsWith(description, LabelHead(feeTypes[0])) then
      Some((feeTypes[0], description[|LabelHead(feeTypes[0])|..]))
    else
      DecodeWith(description, feeTypes[1..])
  }

  lemma NotBoth(s: string, p: string, q: string, i: nat)
    requires i < |p| && i < |q| && p[i] != q[i]
    requires StartsWith(s, p)
    ensures !StartsWith(s, q)
  {
    assert s[i] == p[i];
    if |q| <= |s| {
      assert s[..|q|][i] != q[i];
    }
  }

  /** Decoding picks the first catalogue entry whose label starts the description. */
  lemma {:induction false} DecodeWithFinds(description: string, feeTypes: seq<string>, k: nat)
    requires forall t <- feeTypes :: t in KnownFeeTypes
    requires k < |feeTypes| && StartsWith(description, LabelHead(feeTypes[k]))
    requires forall j :: 0 <= j < k ==> !StartsWith(description, LabelHead(feeTypes[j]))
    ensures DecodeWith(description, feeTypes) == Some((feeTypes[k], description[|LabelHead(feeTypes[k])|..]))
  {
    if k > 0 {
      assert !StartsWith(description, LabelHead(feeTypes[0]));
      forall j | 0 <= j < k - 1
        ensures !StartsWith(description, LabelHead(feeTypes[1..][j]))
      {
        assert feeTypes[1..][j] == feeTypes[j + 1];
      }
      DecodeWithFinds(description, feeTypes[1..], k - 1);
    }
  }

  /** No label head of the catalogue starts with another one, shown at a position where they differ. */
  lemma HeadsExclusive(description: string, i: nat, j: nat)
    requires i < |KnownFeeTypes| && j < |KnownFeeTypes| && i != j
    requires StartsWith(description, LabelHead(KnownFeeTypes[i]))
    ensures !StartsWith(description, LabelHead(KnownFeeTypes[j]))
  {
    var p, q := LabelHead(KnownFeeTypes[i]), LabelHead(KnownFeeTypes[j]);
    // Every label is "Library " followed by a word; the words differ at the first or third letter.
    var at := if {i, j} == {2, 5} then 10 else if {i, j} == {3, 4} then 9 else 8;
    assert p[at] != q[at];
    NotBoth(description, p, q, at);
  }

  /** A description always names its fee type, and keeps the whole barcode when it fits:
      the bursar file can be traced back to the charge it came from. */
  lemma DescriptionRoundTrip(feeType: string, barcode: string)
    requires feeType in KnownFeeTypes
    ensures var mapped := FeeLabel(feeType).value;
            var description := GenerateDescription(feeType, barcode).value;
            DecodeDescription(description) == Some((feeType, Truncate(barcode, DescriptionLimit - |mapped| - 1)))
  {
    var head := LabelHead(feeType);
    var full := head + barcode;
    var description := GenerateDescription(feeType, barcode).value;
    assert description == Truncate(full, DescriptionLimit);
    assert StartsWith(description, head) by {
      assert description[..|head|] == full[..|head|];
    }
    assert description[|head|..] == Truncate(barcode, DescriptionLimit - |head|);
    var k :| 0 <= k < |KnownFeeTypes| && KnownFeeTypes[k] == feeType;
    forall j | 0 <= j < k
      ensures !StartsWith(description, LabelHead(KnownFeeTypes[j]))
    {
      HeadsExclusive(description, k, j);
    }
    DecodeWithFinds(description, KnownFeeTypes, k);
  }

  /** Two charges that produce the same description have the same fee type. */
  lemma DescriptionDeterminesFeeType(t1: string, b1: string, t2: string, b2: string)
    requires GenerateDescription(t1, b1).Success? && GenerateDescription(t2, b2).Success?
    requires GenerateDescription(t1, b1).value == GenerateDescription(t2, b2).value
    ensures t1 == t2
  {
    DescriptionRoundTrip(t1, b1);
    DescriptionRoundTrip(t2, b2);
  }

  /** The cases of the test suite: a short barcode is kept whole, a 30-character one is cut to 30. */
  lemma DescriptionExamples()
    ensures GenerateDescription("OVERDUEFINE", "12345") == Success("Library overdue 12345")
    ensures GenerateDescription("LOSTITEMREPLACEMENTFEE", "12345") == Success("Library repl 12345")
    ensures GenerateDescription("LOSTITEMPROCESSFEE", "12345") == Success("Library lost 12345")
    ensures GenerateDescription("RECALLEDOVERDUEFINE", "12345") == Success("Library recalled 12345")
    ensures GenerateDescription("DAMAGEDITEMFINE", "12345") == Success("Library damaged 12345")
    ensures GenerateDescription("OTHER", "12345") == Success("Library other 12345")
    ensures |GenerateDescription("OVERDUEFINE", seq(30, _ => 'a')).value| == 30
  {
    assert "Library overdue" + " " + "12345" == "Library overdue 12345";
    assert "Library repl" + " " + "12345" == "Library repl 12345";
    assert "Library lost" + " " + "12345" == "Library lost 12345";
    assert "Library recalled" + " " + "12345" == "Library recalled 12345";
    assert "Library damaged" + " " + "12345" == "Library damaged 12345";
    assert "Library other" + " " + "12345" == "Library other 12345";
  }

  /** An unknown code, and the empty code, raise an error that names the code. */
  lemma UnknownFeeTypeExamples()
    ensures GenerateDescription("foo", "12345") == Failure(UnrecognizedFeeType("foo"))
    ensures GenerateDescription("foo", "12345").error.Message() == "Unrecoginzed fine fee type: foo"
    ensures GenerateDescription("", "12345") == Failure(UnrecognizedFeeType(""))
  {
  }
}
