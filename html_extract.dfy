/** The tag/attribute filter over the HTML tokenizer's output. The tokenizer
    itself is a foreign library: its output is given as the tokens it yields
    before it stops, followed by the read on which it reports EOF or another
    error (that last read still carries a token, which the filter discards). */
module HtmlExtract {
  import opened Results

  datatype Attribute = Attribute(key: string, val: string)

  /** A token as the tokenizer reports it: its `Data` (the tag name for a tag
      token) and its attributes in document order. */
  datatype Token = Token(data: string, attrs: seq<Attribute>)

  /** How the tokenizer stopped. */
  datatype StreamEnd = EndOfFile | ReadFailure

  datatype TokenStream = TokenStream(tokens: seq<Token>, last: Token, end: StreamEnd)

  /** The error status the tokenizer reports with a read. */
  datatype Status = NoError | EOF | Failure

  /** The token and status of the tokenizer's read number `pos`. */
  function Next(s: TokenStream, pos: nat): (Token, Status)
    requires pos <= |s.tokens|
  {
    if pos < |s.tokens| then (s.tokens[pos], NoError)
    else (s.last, if s.end == EndOfFile then EOF else Failure)
  }

  /** Attribute `j` of `t` is one the filter keeps. */
  predicate Selected(t: Token, j: int, tag: string, attribute: string)
  {
    0 <= j < |t.attrs| && t.data == tag && t.attrs[j].key == attribute && t.attrs[j].val != ""
  }

  /** The non-empty values of the attributes named `attribute`, in order. */
  function ValuesOf(attrs: seq<Attribute>, attribute: string): seq<string>
  {
    if attrs == [] then []
    else if attrs[0].key != attribute || attrs[0].val == "" then ValuesOf(attrs[1..], attribute)
    else [attrs[0].val] + ValuesOf(attrs[1..], attribute)
  }

  /** The values the filter keeps from one token. */
  function TokenValues(t: Token, tag: string, attribute: string): seq<string>
  {
    if t.data != tag then [] else ValuesOf(t.attrs, attribute)
  }

  /** The values the filter keeps from a run of tokens, token by token. */
  function Collect(tokens: seq<Token>, tag: string, attribute: string): seq<string>
  {
    if tokens == [] then []
    else TokenValues(tokens[0], tag, attribute) + Collect(tokens[1..], tag, attribute)
  }

  lemma {:induction false} ValuesOfAppend(a: seq<Attribute>, b: seq<Attribute>, attribute: string)
    ensures ValuesOf(a + b, attribute) == ValuesOf(a, attribute) + ValuesOf(b, attribute)
    decreases |a|
  {
    if a != [] {
      assert (a + b)[1..] == a[1..] + b;
      ValuesOfAppend(a[1..], b, attribute);
    } else {
      assert a + b == b;
    }
  }

  /** The values of consecutive runs of tokens come out in the same order. */
  lemma {:induction false} CollectAppend(a: seq<Token>, b: seq<Token>, tag: string, attribute: string)
    ensures Collect(a + b, tag, attribute) == Collect(a, tag, attribute) + Collect(b, tag, attribute)
    decreases |a|
  {
    if a != [] {
      assert (a + b)[1..] == a[1..] + b;
      CollectAppend(a[1..], b, tag, attribute);
    } else {
      assert a + b == b;
    }
  }

  /** Empty values are never extracted. */
  lemma {:induction false} ValuesOfNonEmpty(attrs: seq<Attribute>, attribute: string)
    ensures forall i :: 0 <= i < |ValuesOf(attrs, attribute)| ==> ValuesOf(attrs, attribute)[i] != ""
    decreases |attrs|
  {
    if attrs != [] {
      ValuesOfNonEmpty(attrs[1..], attribute);
    }
  }

  lemma {:induction false} CollectNonEmpty(tokens: seq<Token>, tag: string, attribute: string)
    ensures forall i :: 0 <= i < |Collect(tokens, tag, attribute)| ==> Collect(tokens, tag, attribute)[i] != ""
    decreases |tokens|
  {
    if tokens != [] {
      ValuesOfNonEmpty(tokens[0].attrs, attribute);
      CollectNonEmpty(tokens[1..], tag, attribute);
    }
  }

  lemma {:induction false} ValuesOfMembers(t: Token, tag: string, attribute: string, v: string)
    requires t.data == tag
    ensures v in ValuesOf(t.attrs, attribute) <==>
            exists j :: Selected(t, j, tag, attribute) && t.attrs[j].val == v
    decreases |t.attrs|
  {
    if t.attrs != [] {
      var rest := Token(t.data, t.attrs[1..]);
      ValuesOfMembers(rest, tag, attribute, v);
      assert forall j :: 0 <= j ==> (Selected(rest, j, tag, attribute) <==> Selected(t, j + 1, tag, attribute));
      assert forall j :: 0 <= j < |rest.attrs| ==> rest.attrs[j] == t.attrs[j + 1];
      if v in ValuesOf(t.attrs, attribute) {
        if !Selected(t, 0, tag, attribute) || t.attrs[0].val != v {
          assert v in ValuesOf(rest.attrs, attribute);
          var j :| Selected(rest, j, tag, attribute) && rest.attrs[j].val == v;
          assert Selected(t, j + 1, tag, attribute) && t.attrs[j + 1].val == v;
        }
      } else {
        forall j | Selected(t, j, tag, attribute) ensures t.attrs[j].val != v {
          if j > 0 {
            assert Selected(rest, j - 1, tag, attribute);
          }
        }
      }
    }
  }

  /** A value is extracted exactly when some token named `tag` carries it,
      non-empty, under the key `attribute`. */
  lemma {:induction false} CollectMembers(tokens: seq<Token>, tag: string, attribute: string, v: string)
    ensures v in Collect(tokens, tag, attribute) <==>
            exists i, j :: 0 <= i < |tokens| && Selected(tokens[i], j, tag, attribute) && tokens[i].attrs[j].val == v
    decreases |tokens|
  {
    if tokens != [] {
      CollectMembers(tokens[1..], tag, attribute, v);
      var t := tokens[0];
      if t.data == tag {
        ValuesOfMembers(t, tag, attribute, v);
      }
      if v in Collect(tokens, tag, attribute) {
        if v in TokenValues(t, tag, attribute) {
          var j :| Selected(t, j, tag, attribute) && t.attrs[j].val == v;
          assert 0 <= 0 < |tokens| && Selected(tokens[0], j, tag, attribute) && tokens[0].attrs[j].val == v;
        } else {
          assert v in Collect(tokens[1..], tag, attribute);
          var i, j :| 0 <= i < |tokens[1..]| && Selected(tokens[1..][i], j, tag, attribute) && tokens[1..][i].attrs[j].val == v;
          assert Selected(tokens[i + 1], j, tag, attribute) && tokens[i + 1].attrs[j].val == v;
        }
      } else {
        forall i, j | 0 <= i < |tokens| && Selected(tokens[i], j, tag, attribute) ensures tokens[i].attrs[j].val != v {
          if i > 0 {
            assert tokens[1..][i - 1] == tokens[i];
          }
        }
      }
    }
  }

  /** Unfolds `Collect` at token `k`. */
  lemma CollectStep(tokens: seq<Token>, k: nat, tag: string, attribute: string)
    requires k < |tokens|
    ensures Collect(tokens[k..], tag, attribute)
            == TokenValues(tokens[k], tag, attribute) + Collect(tokens[k + 1..], tag, attribute)
  {
    assert tokens[k..][1..] == tokens[k + 1..];
  }

  /** Every (token, attribute) pair in document order: token order first,
      then attribute order. */
  function Candidates(tokens: seq<Token>): seq<(string, Attribute)>
  {
    if tokens == [] then []
    else Pairs(tokens[0].data, tokens[0].attrs) + Candidates(tokens[1..])
  }

  function Pairs(data: string, attrs: seq<Attribute>): seq<(string, Attribute)>
  {
    if attrs == [] then [] else [(data, attrs[0])] + Pairs(data, attrs[1..])
  }

  /** Keeps the values of the pairs the filter accepts, in order, duplicates
      included. */
  function Keep(cands: seq<(string, Attribute)>, tag: string, attribute: string): seq<string>
  {
    if cands == [] then []
    else
      var (data, a) := cands[0];
      (if data == tag && a.key == attribute && a.val != "" then [a.val] else [])
        + Keep(cands[1..], tag, attribute)
  }

  lemma {:induction false} KeepAppend(a: seq<(string, Attribute)>, b: seq<(string, Attribute)>, tag: string, attribute: string)
    ensures Keep(a + b, tag, attribute) == Keep(a, tag, attribute) + Keep(b, tag, attribute)
    decreases |a|
  {
    if a != [] {
      assert (a + b)[1..] == a[1..] + b;
      KeepAppend(a[1..], b, tag, attribute);
    } else {
      assert a + b == b;
    }
  }

  lemma {:induction false} KeepPairs(data: string, attrs: seq<Attribute>, tag: string, attribute: string)
    ensures Keep(Pairs(data, attrs), tag, attribute) == TokenValues(Token(data, attrs), tag, attribute)
    decreases |attrs|
  {
    if attrs != [] {
      KeepPairs(data, attrs[1..], tag, attribute);
    }
  }

  /** The token-by-token filter equals filtering the flat list of every
      (token, attribute) pair in document order. */
  lemma {:induction false} CollectIsKeepOfCandidates(tokens: seq<Token>, tag: string, attribute: string)
    ensures Collect(tokens, tag, attribute) == Keep(Candidates(tokens), tag, attribute)
    decreases |tokens|
  {
    if tokens != [] {
      CollectIsKeepOfCandidates(tokens[1..], tag, attribute);
      KeepAppend(Pairs(tokens[0].data, tokens[0].attrs), Candidates(tokens[1..]), tag, attribute);
      KeepPairs(tokens[0].data, tokens[0].attrs, tag, attribute);
    }
  }

  /** Extending a run of tokens by one token extends its values by that
      token's values. */
  lemma CollectPrefixStep(tokens: seq<Token>, k: nat, tag: string, attribute: string)
    requires k < |tokens|
    ensures Collect(tokens[..k + 1], tag, attribute)
            == Collect(tokens[..k], tag, attribute) + TokenValues(tokens[k], tag, attribute)
  {
    var t := tokens[k];
    CollectAppend(tokens[..k], [t], tag, attribute);
    assert tokens[..k + 1] == tokens[..k] + [t];
    assert [t][1..] == [];
    assert Collect([t], tag, attribute) == TokenValues(t, tag, attribute);
  }

  /** Extending a run of attributes by one attribute extends its values by
      that attribute's value when the filter keeps it. */
  lemma ValuesPrefixStep(attrs: seq<Attribute>, j: nat, attribute: string)
    requires j < |attrs|
    ensures ValuesOf(attrs[..j + 1], attribute)
            == ValuesOf(attrs[..j], attribute)
               + (if attrs[j].key != attribute || attrs[j].val == "" then [] else [attrs[j].val])
  {
    var a := attrs[j];
    ValuesOfAppend(attrs[..j], [a], attribute);
    assert attrs[..j + 1] == attrs[..j] + [a];
    assert [a][1..] == [];
  }

  /** extractHTMLTagAttribute: reads tokens until the tokenizer reports an
      error; on EOF returns the values collected so far, on any other error
      returns the error and no values. */
  method ExtractHTMLTagAttribute(s: TokenStream, tag: string, attribute: string) returns (r: Result<seq<string>>)
    ensures s.end == EndOfFile ==> r == Ok(Collect(s.tokens, tag, attribute))
    ensures s.end == ReadFailure ==> r == Err(ParseError)
  {
    var out: seq<string> := [];
    var pos := 0;
    while true
      invariant 0 <= pos <= |s.tokens|
      invariant out == Collect(s.tokens[..pos], tag, attribute)
      decreases |s.tokens| - pos
    {
      var (tok, err) := Next(s, pos);
      if err == EOF {
        break;
      }
      if err != NoError {
        return Err(ParseError);
      }
      CollectPrefixStep(s.tokens, pos, tag, attribute);
      pos := pos + 1;
      if tok.data == tag {
        ghost var before := out;
        var j := 0;
        while j < |tok.attrs|
          invariant 0 <= j <= |tok.attrs|
          invariant out == before + ValuesOf(tok.attrs[..j], attribute)
        {
          var attr := tok.attrs[j];
          ValuesPrefixStep(tok.attrs, j, attribute);
          if attr.key == attribute && attr.val != "" {
            out := out + [attr.val];
          }
          j := j + 1;
        }
        assert tok.attrs[..j] == tok.attrs;
      }
    }
    assert s.tokens[..pos] == s.tokens;
    return Ok(out);
  }
}
