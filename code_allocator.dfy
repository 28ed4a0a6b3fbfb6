/**
 * `generateCode`, nested in both proxy handlers: draw a code of fixed length
 * from a fixed alphabet, query the videos table for it, and draw again while
 * some row already carries it.
 *
 * `random.choice` is replaced by a stream of rolls, each the index of the
 * character picked; every candidate consumes `length` rolls. The stream is
 * finite: running out of it stands for the recursion never finding a free
 * code, which Python ends with `RecursionError`.
 */
module CodeAllocator {
  import opened Records
  import opened Storage

  /** og-proxy-integration: 8 characters from "123456789abcdefABCDEF". */
  const ShortAlphabet := "123456789abcdefABCDEF"
  const ShortCodeLength := 8

  /** The `n` consecutive characters from `first` on. */
  function CharRange(first: char, n: nat): (s: string)
    requires first as int + n <= 0xD800
    ensures |s| == n
    ensures forall i :: 0 <= i < n ==> s[i] as int == first as int + i
  {
    seq(n, i requires 0 <= i < n => (first as int + i) as char)
  }

  /** `string.ascii_letters` and `string.digits`. */
  const AsciiLetters := CharRange('a', 26) + CharRange('A', 26)
  const Digits := CharRange('0', 10)

  /** The root proxy: 7 characters from `string.ascii_letters + string.digits`. */
  const AlnumAlphabet := AsciiLetters + Digits
  const AlnumCodeLength := 7

  /** Every roll picks a character of the alphabet, as `random.choice` does. */
  predicate ValidRolls(alphabet: string, rolls: seq<nat>)
  {
    forall i :: 0 <= i < |rolls| ==> rolls[i] < |alphabet|
  }

  /** `''.join(random.choice(alphabet) for _ in range(len(rolls)))`. */
  function Draw(alphabet: string, rolls: seq<nat>): (code: string)
    requires ValidRolls(alphabet, rolls)
    ensures |code| == |rolls|
    ensures forall i :: 0 <= i < |code| ==> code[i] in alphabet
  {
    seq(|rolls|, i requires 0 <= i < |rolls| => alphabet[rolls[i]])
  }

  /** The query `len(response["Items"]) == 0` fails: some row carries `code`. */
  predicate InUse(videos: seq<Video>, code: string)
  {
    WithCode(videos, code) != []
  }

  /** The candidates a roll stream yields, in the order they are tried. */
  function Candidates(alphabet: string, length: nat, rolls: seq<nat>): seq<string>
    requires length > 0 && ValidRolls(alphabet, rolls)
    decreases |rolls|
  {
    if |rolls| < length then []
    else [Draw(alphabet, rolls[..length])] + Candidates(alphabet, length, rolls[length..])
  }

  /**
   * `generateCode()`. A returned code has the fixed length, uses only the
   * alphabet, and is carried by no stored row.
   */
  function GenerateCode(videos: seq<Video>, alphabet: string, length: nat, rolls: seq<nat>): (r: Result<string>)
    requires length > 0 && ValidRolls(alphabet, rolls)
    ensures r.Ok? ==> |r.value| == length
    ensures r.Ok? ==> forall i :: 0 <= i < |r.value| ==> r.value[i] in alphabet
    ensures r.Ok? ==> forall v :: v in videos ==> v.code != r.value
    ensures r.Raised? ==> r.error == RecursionError
    decreases |rolls|
  {
    if |rolls| < length then Raised(RecursionError)
    else
      var code := Draw(alphabet, rolls[..length]);
      if !InUse(videos, code) then
        assert forall v :: v in videos ==> v.code != code by {
          forall v | v in videos ensures v.code != code {
            var i :| 0 <= i < |videos| && videos[i] == v;
          }
        }
        Ok(code)
      else GenerateCode(videos, alphabet, length, rolls[length..])
  }

  /** `code` is the first candidate that no stored row carries. */
  predicate FirstFree(videos: seq<Video>, cands: seq<string>, code: string)
  {
    exists k :: 0 <= k < |cands| && cands[k] == code && !InUse(videos, code) &&
                forall j :: 0 <= j < k ==> InUse(videos, cands[j])
  }

  predicate AllInUse(videos: seq<Video>, cands: seq<string>)
  {
    forall j :: 0 <= j < |cands| ==> InUse(videos, cands[j])
  }

  lemma FirstFreeAfterTaken(videos: seq<Video>, taken: string, tail: seq<string>, code: string)
    requires InUse(videos, taken) && FirstFree(videos, tail, code)
    ensures FirstFree(videos, [taken] + tail, code)
  {
    var cands := [taken] + tail;
    var k :| 0 <= k < |tail| && tail[k] == code && !InUse(videos, code) &&
             forall j :: 0 <= j < k ==> InUse(videos, tail[j]);
    assert cands[k + 1] == code;
    forall j | 0 <= j < k + 1
      ensures InUse(videos, cands[j])
    {
      if j > 0 { assert cands[j] == tail[j - 1]; }
    }
  }

  lemma AllInUseAfterTaken(videos: seq<Video>, taken: string, tail: seq<string>)
    requires InUse(videos, taken) && AllInUse(videos, tail)
    ensures AllInUse(videos, [taken] + tail)
  {
    var cands := [taken] + tail;
    forall j | 0 <= j < |cands|
      ensures InUse(videos, cands[j])
    {
      if j > 0 { assert cands[j] == tail[j - 1]; }
    }
  }

  lemma FirstFreeAtHead(videos: seq<Video>, code: string, tail: seq<string>)
    requires !InUse(videos, code)
    ensures FirstFree(videos, [code] + tail, code)
  {
    var cands := [code] + tail;
    assert cands[0] == code;
  }

  /**
   * The code returned is the first free candidate of the stream, and the
   * allocation fails only when every candidate was taken.
   */
  lemma {:induction false} GenerateCodeIsFirstFree(videos: seq<Video>, alphabet: string, length: nat, rolls: seq<nat>)
    requires length > 0 && ValidRolls(alphabet, rolls)
    ensures var r := GenerateCode(videos, alphabet, length, rolls);
            r.Ok? ==> FirstFree(videos, Candidates(alphabet, length, rolls), r.value)
    ensures GenerateCode(videos, alphabet, length, rolls).Raised? ==>
              AllInUse(videos, Candidates(alphabet, length, rolls))
    decreases |rolls|
  {
    if |rolls| >= length {
      var code := Draw(alphabet, rolls[..length]);
      var tail := Candidates(alphabet, length, rolls[length..]);
      assert Candidates(alphabet, length, rolls) == [code] + tail;
      if InUse(videos, code) {
        GenerateCodeIsFirstFree(videos, alphabet, length, rolls[length..]);
        var r := GenerateCode(videos, alphabet, length, rolls[length..]);
        if r.Ok? {
          FirstFreeAfterTaken(videos, code, tail, r.value);
        } else {
          AllInUseAfterTaken(videos, code, tail);
        }
      } else {
        FirstFreeAtHead(videos, code, tail);
      }
    }
  }
}
