# Coursework algorithms and chat-history core, in Dafny

This project models the logic of three groups of coursework exercises and
proves what they promise.

- **Numeric REST endpoints.** Three FastAPI apps expose the same integer-list
  algorithms: `main.py`, `CAP01_CHALLENGE/main.py` and
  `m1/CAP01_CHALLENGE/main.py`. The endpoints of `main.py` take only the
  payload and have no authentication. The other two files put every endpoint
  behind a token check that answers 401 on a bad token; the model leaves that
  path out. The algorithms are bubble sort (in place),
  binary search, merge sort with its `merge` step, `find_min`, and the mean and
  median. The endpoint bodies add the even filter, the sum, the maximum and the
  "empty list" guards. `bubble_sort` and `binary_search` are the same code in
  all three files. Only the `m1` copy has `merge_sort`, `merge`, `find_min`,
  `calculate_mean_median` and the `/merge-sort`, `/min-value` and
  `/mean-median` endpoints. Module `ListAlgorithms` (`list_algorithms.dfy`)
  holds the algorithms. Module `NumberEndpoints` (`endpoints.dfy`) holds the
  endpoint bodies. One model serves all three files.
- **Primality check.** `es_primo` in `m3/CAP06_CHALLENGE/parte1/func.py`
  rejects booleans and non-numbers with `TypeError`. It then does trial
  division by 2 and by the odd numbers up to the square root. This is module
  `Primality` (`primality.dfy`).
- **Chat history and prompt assembly.** This is the chatbot in
  `m4/CAP08_CHALLENGE/ChatbotProject`. `MemoryManager` keeps the turn list.
  `build_messages` turns the history and the web-search context into the
  message list sent to the language model. These are modules `PromptBuilder`
  (`prompt_builder.dfy`) and `Memory` (`memory.dfy`).

`Outcomes` (`outcomes.dfy`) turns the exceptions into values:
- `BadRequest(detail)` is the endpoints' HTTP 400;
- `ValueError` and `TypeError` are the Python exceptions;
- `Result<T>` is `Ok(value)` or `Err(error)`.

The error messages and the prompt texts are the source's own strings.

Modelling choices:
- `bubble_sort` keeps the list as an `array<int>` and sorts it in place. Its
  inner `for j` loop is the method `BubblePass`, which the outer loop calls
  once per pass. `BubblePass` is proved through the pure lemma `PassStep`
  about one compare-and-swap.
- `binary_search`, `find_min`, `merge` and `build_messages` are methods with
  loops. Each is proved against its specification: `Merge` against the
  recursive stable merge `Merged`, and `BuildMessages` against `Conversation`
  (the history turns that reach the prompt).
- `merge_sort` is a pure recursive function over `Merged`.
- `calculate_mean_median` takes the caller's list as an array and has no
  `modifies` clause. So the verifier checks that it sorts a copy and leaves
  its input unchanged.
- `MemoryManager` is a class with one `seq<Message>` field. The field is
  public, so code outside the class could assign it; the class's own methods
  only append to it or empty it. `get_history` returns a copy of the list:
  appending to or removing from the copy leaves the manager unchanged.
- `Valid()` holds when every stored turn has role `user` or `assistant`.
  Every method keeps it, but outside code could break it by assigning the
  field, so `PromptFromMemory` requires it. Because of it, `build_messages` forwards the whole
  stored history (`PromptFromMemory`).

`MemoryManager` only ever stores `user` and `assistant` turns
(`m4/CAP08_CHALLENGE/ChatbotProject/chatbot/memory.py:8-12`). The code of
`build_messages` accepts any role
and silently drops the others. The model follows the code: `Message.role` is
an arbitrary string, and `DropsOtherRoles` states the dropping.

## Model

| member | source | states |
|---|---|---|
| `ListAlgorithms.BubbleSort` | m1/CAP01_CHALLENGE/main.py:183-189 | Sorts the array in place: afterwards it is ascending and holds the same multiset as before. The copies at CAP01_CHALLENGE/main.py:163-169 and main.py:19-25 are identical. |
| `ListAlgorithms.BubblePass` | CAP01_CHALLENGE/main.py:165-168 | One pass of the inner loop. It starts with the positions after `end` settled: in order, and no smaller than anything before them. It ends with position `end` settled as well, so after pass `i` the last `i + 1` positions hold the largest elements in final order. It keeps the multiset. |
| `ListAlgorithms.Swap` | main.py:23-24 | The tuple assignment exchanges positions `j` and `j + 1`, leaves every other position unchanged and keeps the multiset. |
| `ListAlgorithms.BinarySearch` | m1/CAP01_CHALLENGE/main.py:192-202 | `(true, i)` implies `0 <= i < len` and `arr[i] == target` on any list. A miss returns index -1. On a sorted list, `found` holds iff `target` occurs. The loop terminates, and `mid` stays within `[left, right]`. |
| `ListAlgorithms.MergedMultiset` | m1/CAP01_CHALLENGE/main.py:212-224 | The merged list holds exactly the elements of `left` and `right`, with their multiplicities. |
| `ListAlgorithms.MergedSorted` | m1/CAP01_CHALLENGE/main.py:215-223 | Merging two sorted lists yields a sorted list. |
| `ListAlgorithms.MergedPrefersLeft` | m1/CAP01_CHALLENGE/main.py:216-218 | Ties go to the left list: when no element of `left` exceeds any element of `right`, the merge is `left + right`. Equal elements of `left` therefore come before those of `right` (stability). |
| `ListAlgorithms.Merge` | m1/CAP01_CHALLENGE/main.py:212-224 | The two-index loop followed by the two `extend` calls computes exactly the stable merge `Merged(left, right)`. |
| `ListAlgorithms.MergeSort` | m1/CAP01_CHALLENGE/main.py:204-210 | The result is sorted, a permutation of the input and of the same length. Inputs of length at most 1 come back unchanged. |
| `ListAlgorithms.SortedPermutationUnique` | m1/CAP01_CHALLENGE/main.py:241 | Two sorted lists with the same multiset are equal. So the bubble-sorted copy is the same list that merge sort produces, whichever sort the source uses. |
| `ListAlgorithms.FindMin` | m1/CAP01_CHALLENGE/main.py:227-234 | An empty list gives `ValueError("La lista está vacía")`. Otherwise the result is an element of the list and is no larger than any element. It equals the reference minimum `Min`. |
| `ListAlgorithms.Min` | m1/CAP01_CHALLENGE/main.py:230-234 | The minimum of a non-empty list is an element of it and is no larger than any element. |
| `ListAlgorithms.Max` | m1/CAP01_CHALLENGE/main.py:146 | Python's `max` of a non-empty list is an element of it and is no smaller than any element. |
| `ListAlgorithms.Sum` | main.py:41 | Python's `sum` of a non-empty list lies between `n` times its minimum and `n` times its maximum. So the mean `sum / n` at m1/CAP01_CHALLENGE/main.py:242 lies between the minimum and the maximum. Same `sum` in CAP01_CHALLENGE/main.py:136 and m1/CAP01_CHALLENGE/main.py:136. |
| `ListAlgorithms.SumConcat` | main.py:39-42 | The sum of a concatenation is the sum of the parts. With `Sum([]) == 0`, this pins down the `/sum-elements` response as the total of all elements. |
| `ListAlgorithms.FilterEven` | main.py:33-36 | Every element of the `/filter-even` result is even. Python's and Dafny's `% 2 == 0` agree for negative numbers too. |
| `ListAlgorithms.FilterEvenCount` | CAP01_CHALLENGE/main.py:130 | Each even value occurs in the result exactly as often as in the input. Odd values do not occur. |
| `ListAlgorithms.FilterEvenConcat` | m1/CAP01_CHALLENGE/main.py:130 | Filtering a concatenation filters each part and joins the results. So the filter keeps the original order. |
| `NumberEndpoints.BubbleSortEndpoint` | m1/CAP01_CHALLENGE/main.py:118-123 | `/bubble-sort` answers with a sorted permutation of the payload. That list equals `MergeSort(numbers)`. |
| `NumberEndpoints.MaxValue` | CAP01_CHALLENGE/main.py:140-146 | An empty payload gives 400 with the source's detail, before anything is computed. Otherwise the answer is an element that is no smaller than any element. Same in main.py:45-50 and m1/CAP01_CHALLENGE/main.py:140-146. |
| `NumberEndpoints.MinValue` | m1/CAP01_CHALLENGE/main.py:164-168 | An empty payload gives 400 before `find_min` runs. Otherwise the answer is an element that is no larger than any element, the list's `Min`. |
| `NumberEndpoints.BinarySearchEndpoint` | main.py:65-69 | The endpoint sorts the payload first, so `found` holds iff `target` occurs in the unsorted payload. A hit's index holds `target` in the sorted list, and a miss gives -1. Same in CAP01_CHALLENGE/main.py:149-155 and m1/CAP01_CHALLENGE/main.py:149-155. |
| `NumberEndpoints.MedianOf` | m1/CAP01_CHALLENGE/main.py:243-246 | The median has denominator 2 for an even length and 1 for an odd one. It lies between the minimum and the maximum of the list: `den * min <= num <= den * max`. |
| `NumberEndpoints.MedianWithinList` | m1/CAP01_CHALLENGE/main.py:245-246 | For an odd length, the median `sorted[n // 2]` is an element of the list. |
| `NumberEndpoints.MedianRank` | m1/CAP01_CHALLENGE/main.py:245-246 | For an odd length `n`, at most `n // 2` elements lie strictly below the median and at most `n // 2` strictly above it. |
| `NumberEndpoints.CalculateMeanMedian` | m1/CAP01_CHALLENGE/main.py:237-247 | An empty list gives `ValueError`. Otherwise the mean is `sum / n` and the median is taken from the sorted copy. The caller's list is not modified, because the method may modify nothing. |
| `NumberEndpoints.MeanMedian` | m1/CAP01_CHALLENGE/main.py:171-175 | An empty payload gives 400 before any computation. Otherwise the answer is the mean `sum / n` and the median of the sorted payload. |
| `Primality.IntSqrt` | m3/CAP06_CHALLENGE/parte1/func.py:23 | The trial bound `r` satisfies `r*r <= n < (r+1)*(r+1)`, the integer square root. |
| `Primality.DivisorBelowSqrt` | m3/CAP06_CHALLENGE/parte1/func.py:23-25 | A divisor found by the trial loop lies strictly between 1 and `n`. So returning False there is correct. |
| `Primality.NoDivisorUpToSqrt` | m3/CAP06_CHALLENGE/parte1/func.py:23-27 | If no number from 2 to `isqrt(n)` divides `n`, then no number strictly between 1 and `n` does. So trial division up to the square root is enough. |
| `Primality.OddHasNoEvenDivisor` | m3/CAP06_CHALLENGE/parte1/func.py:20-23 | An odd number has no even divisor, which is why the loop can skip the even candidates. |
| `Primality.EsPrimo` | m3/CAP06_CHALLENGE/parte1/func.py:1-27 | A bool or a non-number gives `TypeError` with the source's message. An integer gives `IsPrime(n)`: at least 2 with no divisor `d` where `2 <= d < n`. In particular, integers below 2 (negatives included) give False, 2 gives True, and even integers above 2 give False. |
| `PromptBuilder.Conversation` | m4/CAP08_CHALLENGE/ChatbotProject/chatbot/utils.py:22-26 | The turns forwarded from the history all have role `user` or `assistant`, and there are no more of them than history turns. |
| `PromptBuilder.ConversationConcat` | m4/CAP08_CHALLENGE/ChatbotProject/chatbot/utils.py:22-26 | The forwarding treats each turn on its own and keeps history order. |
| `PromptBuilder.ConversationKeepsConversational` | m4/CAP08_CHALLENGE/ChatbotProject/chatbot/utils.py:23-26 | A history of only user and assistant turns is forwarded whole, each turn with the same role and content. |
| `PromptBuilder.DropsOtherRoles` | m4/CAP08_CHALLENGE/ChatbotProject/chatbot/utils.py:22-26 | A turn with any other role is silently dropped. |
| `PromptBuilder.BuildMessages` | m4/CAP08_CHALLENGE/ChatbotProject/chatbot/utils.py:6-36 | The first message is the system message with the fixed instruction. Next come the forwarded turns in history order. If `web_context` is non-empty, the last message is `user` with `"Contexto de búsqueda:\n" + web_context`. The length is 1 + forwarded turns + (1 if there is context). No later message has role `system`. |
| `Memory.MemoryManager.constructor` | m4/CAP08_CHALLENGE/ChatbotProject/chatbot/memory.py:5-6 | A fresh manager has an empty history. |
| `Memory.MemoryManager.AddUserMessage` | m4/CAP08_CHALLENGE/ChatbotProject/chatbot/memory.py:8-9 | The new history is the old one plus `{role: user, content}` at the end. Earlier turns are unchanged. |
| `Memory.MemoryManager.AddAssistantMessage` | m4/CAP08_CHALLENGE/ChatbotProject/chatbot/memory.py:11-12 | The new history is the old one plus `{role: assistant, content}` at the end. Earlier turns are unchanged. |
| `Memory.MemoryManager.GetHistory` | m4/CAP08_CHALLENGE/ChatbotProject/chatbot/memory.py:14-15 | Returns a value equal to the current history and changes nothing. |
| `Memory.MemoryManager.Reset` | m4/CAP08_CHALLENGE/ChatbotProject/chatbot/memory.py:17-18 | The history is empty afterwards, whatever it held. |
| `Memory.AddUserThenAssistant` | m4/CAP08_CHALLENGE/ChatbotProject/tests/test_memory.py:8-16 | A user turn then an assistant turn come back as exactly `[user, assistant]`, length 2, in insertion order. |
| `Memory.AddThenReset` | m4/CAP08_CHALLENGE/ChatbotProject/tests/test_memory.py:19-23 | Any mix of user and assistant turns, in any order, followed by `reset` leaves the history empty. |
| `Memory.PromptFromMemory` | m4/CAP08_CHALLENGE/ChatbotProject/main.py:32 | The prompt built from a manager's history forwards every stored turn: none is dropped as an unknown role. |

## Left out

- Authentication in `CAP01_CHALLENGE/main.py` and `m1/CAP01_CHALLENGE/main.py` is not modelled (`main.py` has none): `create_access_token`, `verify_password`, `get_password_hash`, `authenticate_user`, `get_current_user`, `/register` and `/login`. These are calls into bcrypt and PyJWT, a wall clock and a module-level user dictionary.
- FastAPI routing, request parsing and dependency injection are not modelled. An endpoint is its body, taking the payload's fields as arguments. An `HTTPException(400)` is `Err(BadRequest(detail))`.
- The mean and the even-length median are float divisions in the source. The model gives them as exact quotients `Ratio(num, den)` and does not model float rounding.
- In `es_primo`, float arguments are not modelled: the `1e-9` near-integer tolerance, `round`, and the rejection of non-integral floats. `Value` has only an integer, a boolean and a non-number case.
- `EsPrimo`: the float bound `int(num**0.5)` is modelled as the exact integer square root. For very large integers the float bound can differ, and the model does not capture that. In particular, for odd integers at or above 2^1024, `num**0.5` raises `OverflowError`, while `EsPrimo` returns `Ok(IsPrime(n))`.
- Python raises `ValueError` for `max` of an empty list. `Max` therefore requires a non-empty list, and `MaxValue` guards it with the endpoint's 400, as the source does.
- `ListAlgorithms.BubbleSort` returns nothing. In the source, `bubble_sort` returns the same list object it sorted in place, and the caller's array holds the same result.
- History turns and messages have only `role` and `content`. Any other key of a history dictionary would be dropped by `build_messages`; the model cannot express such keys.
- `PromptBuilder.BuildMessages`: the `KeyError` paths of `build_messages` (m4/CAP08_CHALLENGE/ChatbotProject/chatbot/utils.py:23-26) are not modelled. A turn without a `role` key raises `KeyError`, and so does a user or assistant turn without `content`. A `Message` always has both fields.
- `Memory.MemoryManager.GetHistory`: the copy is shallow. The turn dictionaries stay shared, so changing a turn of the returned list changes the manager's stored turn. The model's turns are values, so it does not capture that aliasing.
- The chatbot's web search (`chatbot/search.py`), article extraction (`chatbot/extractor.py`) and language-model streaming (`chatbot/llm.py`) are not modelled. They are HTTP clients over libraries outside this model.
- The interactive loops in `ChatbotProject/main.py` and `ChatbotProject/chatbot.py` are not modelled (console input and output, `time.sleep`). Only the step that builds a prompt from the memory's history is modelled, as `PromptFromMemory`.
- The CRUD router `m1/CAP02_CHALLENGE/app/routers/tasks_router.py` is not modelled. It delegates to a database module that is not part of this model.
- `check_env.py` and the TypeScript ORM declarations of the hotel-booking package are not modelled. They are configuration with no logic.
