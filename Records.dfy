/** The stored record shapes (a prompt and the editor's form) and the wrappers used for
    optional values and fallible operations. */
module Records {

  datatype Option<+T> = None | Some(value: T)

  datatype Result<+R, +E> = Success(value: R) | Failure(error: E)

  /** Why a record-store request was rejected: the key already exists (an insert-only `add`),
      or the database could not be opened or the transaction failed. */
  datatype StoreError = ConstraintError | IoError

  /** A stored prompt. Timestamps are the milliseconds `Date.now()` returned. */
  datatype Prompt = Prompt(
    id: string,
    title: string,
    content: string,
    tags: seq<string>,
    createdAt: int,
    updatedAt: int,
    usageCount: int,
    isFavorite: bool)

  /** The editable part of a prompt: everything but the store-assigned metadata. */
  datatype PromptForm = PromptForm(title: string, content: string, tags: seq<string>)

  const EmptyForm := PromptForm("", "", [])

  /** The form fields of a stored prompt. */
  function FormOf(p: Prompt): (f: PromptForm)
    ensures f.title == p.title && f.content == p.content && f.tags == p.tags
  {
    PromptForm(p.title, p.content, p.tags)
  }

  /** `{ ...p, ...form }`: the form's fields laid over a stored prompt. */
  function WithForm(p: Prompt, form: PromptForm): (r: Prompt)
    ensures FormOf(r) == form
    ensures r.id == p.id && r.createdAt == p.createdAt && r.updatedAt == p.updatedAt
    ensures r.usageCount == p.usageCount && r.isFavorite == p.isFavorite
  {
    p.(title := form.title, content := form.content, tags := form.tags)
  }

  /** A sequence is its first `n` elements followed by the others. */
  lemma SplitAt<T>(s: seq<T>, n: nat)
    requires n <= |s|
    ensures s[..n] + s[n..] == s
    ensures n == 1 ==> [s[0]] + s[1..] == s
  {
  }

  /** `a` is `b` with some elements left out, the rest in their order. */
  predicate IsSubsequence(a: seq<Prompt>, b: seq<Prompt>)
    decreases |b|
  {
    a == [] || (b != [] && (if a[0] == b[0] then IsSubsequence(a[1..], b[1..]) else IsSubsequence(a, b[1..])))
  }
}
