/** Turning a comma-separated string of entity ids into a list of tokens. */
module Splitter {
  import opened Strings

  /** A token as the splitter produces it: non-empty, no surrounding whitespace, no comma. */
  predicate IsToken(t: string)
  {
    t != "" && !IsSpace(t[0]) && !IsSpace(t[|t| - 1]) && ',' !in t
  }

  /** `[e.strip() for e in pieces if e.strip()]`. */
  function StripAndDropEmpty(pieces: seq<string>): (r: seq<string>)
    ensures |r| <= |pieces|
  {
    if |pieces| == 0 then []
    else
      var t := Strip(pieces[0]);
      var rest := StripAndDropEmpty(pieces[1..]);
      if t == "" then rest else [t] + rest
  }

  /** Comma-free pieces give tokens. */
  lemma {:induction false} StripAndDropEmptyGivesTokens(pieces: seq<string>)
    requires forall i :: 0 <= i < |pieces| ==> ',' !in pieces[i]
    ensures forall i :: 0 <= i < |StripAndDropEmpty(pieces)| ==> IsToken(StripAndDropEmpty(pieces)[i])
  {
    if |pieces| > 0 {
      StripAndDropEmptyGivesTokens(pieces[1..]);
      var t := Strip(pieces[0]);
      StripFacts(pieces[0]);
      assert multiset(t)[','] <= multiset(pieces[0])[','] == 0;
      var rest := StripAndDropEmpty(pieces[1..]);
      assert t != "" ==> IsToken(t);
      assert StripAndDropEmpty(pieces) == if t == "" then rest else [t] + rest;
    }
  }

  /** What `split_entities` assigns to `entities`. */
  function SplitEntityString(s: string): (r: seq<string>)
    ensures forall i :: 0 <= i < |r| ==> IsToken(r[i])
    ensures |r| <= multiset(s)[','] + 1
  {
    SplitPieces(s, ',');
    StripAndDropEmptyGivesTokens(Split(s, ','));
    StripAndDropEmpty(Split(s, ','))
  }

  lemma {:induction false} StripAndDropEmptyConcat(a: seq<string>, b: seq<string>)
    ensures StripAndDropEmpty(a + b) == StripAndDropEmpty(a) + StripAndDropEmpty(b)
  {
    if |a| > 0 {
      assert (a + b)[1..] == a[1..] + b;
      StripAndDropEmptyConcat(a[1..], b);
    } else {
      assert a + b == b;
    }
  }

  lemma {:induction false} StripAndDropEmptyKeepsTokens(ts: seq<string>)
    requires forall i :: 0 <= i < |ts| ==> IsToken(ts[i])
    ensures StripAndDropEmpty(ts) == ts
  {
    if |ts| > 0 {
      StripFacts(ts[0]);
      StripAndDropEmptyKeepsTokens(ts[1..]);
    }
  }

  /** Tokens keep their order and duplicates survive: the tokens of `a,b` are
      those of `a` followed by those of `b`. */
  lemma SplitEntityStringConcat(a: string, b: string)
    ensures SplitEntityString(a + "," + b) == SplitEntityString(a) + SplitEntityString(b)
  {
    SplitConcat(a, b, ',');
    StripAndDropEmptyConcat(Split(a, ','), Split(b, ','));
  }

  /** Joining the tokens with commas and splitting again gives the same tokens. */
  lemma SplitEntityStringIdempotent(s: string)
    ensures SplitEntityString(Join(SplitEntityString(s), ',')) == SplitEntityString(s)
  {
    var ts := SplitEntityString(s);
    var joined := Join(ts, ',');
    if |ts| == 0 {
      assert joined == "";
      assert Split(joined, ',') == [""];
      assert Strip("") == "";
      assert StripAndDropEmpty([""]) == [];
    } else {
      assert forall i :: 0 <= i < |ts| ==> ',' !in ts[i] by {
        forall i | 0 <= i < |ts| ensures ',' !in ts[i] {
          assert IsToken(ts[i]);
        }
      }
      SplitJoin(ts, ',');
      StripAndDropEmptyKeepsTokens(ts);
      calc {
        SplitEntityString(joined);
        StripAndDropEmpty(Split(joined, ','));
        StripAndDropEmpty(ts);
        ts;
      }
    }
  }

  lemma SplitEmptyString()
    ensures SplitEntityString("") == []
  {
    assert Split("", ',') == [""];
    assert Strip("") == "";
  }

  lemma PiecesWithSpacesAndEmptyPieces()
    ensures Split("  Q42 , , L1 ,, Q99 ", ',') == ["  Q42 ", " ", " L1 ", "", " Q99 "]
  {
    var parts := ["  Q42 ", " ", " L1 ", "", " Q99 "];
    assert Join(parts[3..], ',') == ",, Q99 "[1..];
    assert Join(parts[2..], ',') == " L1 ,, Q99 ";
    assert Join(parts[1..], ',') == " , L1 ,, Q99 ";
    assert Join(parts, ',') == "  Q42 , , L1 ,, Q99 ";
    SplitJoin(parts, ',');
  }

  lemma StripPaddedQ42()
    ensures Strip("  Q42 ") == "Q42"
  {
    assert LStrip("  Q42 ") == LStrip(" Q42 ") == "Q42 ";
    assert RStrip("Q42 ") == "Q42";
  }

  lemma StripPaddedL1()
    ensures Strip(" L1 ") == "L1"
  {
    assert LStrip(" L1 ") == "L1 ";
    assert RStrip("L1 ") == "L1";
  }

  lemma StripPaddedQ99()
    ensures Strip(" Q99 ") == "Q99"
  {
    assert LStrip(" Q99 ") == "Q99 ";
    assert RStrip("Q99 ") == "Q99";
  }

  lemma TokensWithSpacesAndEmptyPieces()
    ensures StripAndDropEmpty(["  Q42 ", " ", " L1 ", "", " Q99 "]) == ["Q42", "L1", "Q99"]
  {
    var parts := ["  Q42 ", " ", " L1 ", "", " Q99 "];
    StripPaddedQ42();
    StripPaddedL1();
    StripPaddedQ99();
    assert Strip(" ") == "";
    assert Strip("") == "";
    assert StripAndDropEmpty(parts[4..]) == ["Q99"];
    assert StripAndDropEmpty(parts[3..]) == ["Q99"];
    assert StripAndDropEmpty(parts[2..]) == ["L1", "Q99"];
    assert StripAndDropEmpty(parts[1..]) == ["L1", "Q99"];
  }

  lemma SplitWithSpacesAndEmptyPieces()
    ensures SplitEntityString("  Q42 , , L1 ,, Q99 ") == ["Q42", "L1", "Q99"]
  {
    PiecesWithSpacesAndEmptyPieces();
    TokensWithSpacesAndEmptyPieces();
  }

  lemma PiecesWithInnerSpaces()
    ensures Split("Q42, L1 ,Q99", ',') == ["Q42", " L1 ", "Q99"]
  {
    var parts := ["Q42", " L1 ", "Q99"];
    assert Join(parts, ',') == "Q42, L1 ,Q99";
    SplitJoin(parts, ',');
  }

  lemma TokensWithInnerSpaces()
    ensures StripAndDropEmpty(["Q42", " L1 ", "Q99"]) == ["Q42", "L1", "Q99"]
  {
    StripPaddedL1();
  }

  lemma SplitWithInnerSpaces()
    ensures SplitEntityString("Q42, L1 ,Q99") == ["Q42", "L1", "Q99"]
  {
    PiecesWithInnerSpaces();
    TokensWithInnerSpaces();
  }

  lemma PiecesWithDuplicates()
    ensures Split("Q1,Q1", ',') == ["Q1", "Q1"]
  {
    var parts := ["Q1", "Q1"];
    assert Join(parts, ',') == "Q1,Q1";
    SplitJoin(parts, ',');
  }

  lemma TokensWithDuplicates()
    ensures StripAndDropEmpty(["Q1", "Q1"]) == ["Q1", "Q1"]
  {
  }

  lemma SplitKeepsDuplicates()
    ensures SplitEntityString("Q1,Q1") == ["Q1", "Q1"]
  {
    PiecesWithDuplicates();
    TokensWithDuplicates();
  }

  /** The splitter object: holds the raw string and, after `SplitEntities`, its tokens. */
  class Splitter {
    var entitiesString: string
    var entities: seq<string>

    constructor (entitiesString: string)
      ensures this.entitiesString == entitiesString && entities == []
    {
      this.entitiesString := entitiesString;
      entities := [];
    }

    method SplitEntities()
      modifies this`entities
      ensures entities == SplitEntityString(entitiesString)
      ensures forall i :: 0 <= i < |entities| ==> IsToken(entities[i])
    {
      entities := SplitEntityString(entitiesString);
    }
  }
}
