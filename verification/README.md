# UDP source-address-hash load balancer, in Dafny

This project models the hash load balancer of the UDP package of a reverse
proxy (`pkg/udp/hash_load_balancer.go`). The balancer keeps an append-only,
ordered pool of servers. It routes each UDP connection to the server at index
`hash(client IP) mod len(servers)`, where `hash` is 32-bit FNV-1a over the
bytes of the client's IP string.

Modules:

- `Wrappers` (`wrappers.dfy`): `Result<T>`, the model of Go's `(value, error)` return pair.
- `Fnv` (`fnv.dfy`): FNV-1a 32-bit as a left fold on `bv32`. The fold starts at the offset basis 2166136261. Each round XORs a byte in and multiplies by the prime 16777619; `bv32` multiplication wraps modulo 2^32, so the definition is exact. The Go `hash/fnv` package is not part of this model; the hash is written from the FNV-1a definition.
- `Udp` (`hash_load_balancer.dfy`): the server entry `ServerHash`, the balancer value `HashLoadBalancer`, and the operations of the source file:
  - `NewHashLoadBalancer`, `AddServer` and `Hash`;
  - `Next`, with its pool index `Index`;
  - the dispatch decision of `ServeUDP`.

The balancer is an immutable value. `AddServer` returns the extended pool, and
`Next` and `ServeUDP` are pure functions of the pool and the client address.
The client address is given directly as the bytes of its IP string. Dispatch
is modelled as its outcome: either no dispatch, or the handler that receives
the connection.

## Model

| member | source | states |
|---|---|---|
| `Udp.NewHashLoadBalancer` | pkg/udp/hash_load_balancer.go:24-27 | A new balancer has an empty server pool. |
| `Udp.AddServer` | pkg/udp/hash_load_balancer.go:45-48 | The pool grows by exactly one. The new last entry holds the given handler with weight 0. Every earlier entry is unchanged at its old position. |
| `Udp.AddServersAppends` | pkg/udp/hash_load_balancer.go:45-48 | After any sequence of `AddServer` calls, the old pool is a prefix of the new one. The added handlers follow in call order, each with weight 0. |
| `Udp.Configured` | pkg/udp/hash_load_balancer.go:24-48 | A new balancer followed by `AddServer` for each handler of a list holds exactly that list in order, with all weights 0. |
| `Udp.Hash` | pkg/udp/hash_load_balancer.go:50-54 | Feeding the bytes one at a time to a fresh FNV-1a writer yields the FNV-1a 32-bit digest of the whole input. |
| `Fnv.FoldAppend` | pkg/udp/hash_load_balancer.go:50-54 | FNV-1a can be fed in pieces. Hashing `a + b` equals hashing `b` starting from the state reached after `a`. |
| `Fnv.Sum32aSnoc` | pkg/udp/hash_load_balancer.go:50-54 | The digest is a left fold. Appending a byte applies one more round (XOR the byte, then multiply by the prime mod 2^32) to the digest so far. |
| `Fnv.TestVectors` | pkg/udp/hash_load_balancer.go:50-54 | The empty input hashes to the offset basis 0x811c9dc5. "a" hashes to 0xe40c292c, the published FNV-1a 32-bit value. |
| `Fnv.TestVectorFoobar` | pkg/udp/hash_load_balancer.go:50-54 | "foobar" hashes to 0xbf9cf968, the published FNV-1a 32-bit value. The six rounds run left to right, so this value also fixes the byte order of the fold. |
| `Fnv.DottedQuadDigest` | pkg/udp/hash_load_balancer.go:50-54 | The client address string "10.0.0.5" hashes to 0xdabeb841. |
| `Udp.Index` | pkg/udp/hash_load_balancer.go:64 | For a non-empty pool, the selected index lies in `[0, len(servers))`. |
| `Udp.Next` | pkg/udp/hash_load_balancer.go:56-67 | `next` fails exactly when the pool is empty, and the error is "no servers in the pool". Otherwise it returns, without error, a pool member: the one at index `hash(rAddr) mod len(servers)`. |
| `Udp.NextDependsOnlyOnDigest` | pkg/udp/hash_load_balancer.go:56-67 | Selection is deterministic. Two addresses with the same digest, or one address asked twice of the same pool, select the same entry. |
| `Udp.NextAfterAddServer` | pkg/udp/hash_load_balancer.go:45-67 | After one more `AddServer`, an address selects the old entry at its new index `hash mod (n+1)` if that index is below `n`, and otherwise the new entry. |
| `Udp.AddServerCanRemap` | pkg/udp/hash_load_balancer.go:64 | Affinity does not survive growth. With two servers, "10.0.0.5" (0xdabeb841, which is 1 mod 2) goes to the second. After a third is added (0 mod 3) it goes to the first. |
| `Udp.ServeUDP` | pkg/udp/hash_load_balancer.go:30-42 | An empty pool means no handler is invoked. Otherwise exactly one dispatch happens, to the handler of the entry `next` selects for the client address. |
| `Udp.ServeThreeServers` | pkg/udp/hash_load_balancer.go:24-54 | Pool [H0, H1, H2] built by `AddServer`: a connection from "10.0.0.5" (digest 0xdabeb841, which is 0 mod 3) is handed to H0. |

## Left out

- Locking: the `sync.RWMutex` and its use in `next` (lines 20, 57-58) only matter under concurrency. So does the fact that `AddServer` appends without the lock. The model is sequential.
- Logging: the `log.WithoutContext()` calls (lines 32, 35, 38, 65) are observability only.
- Address extraction: `conn.rAddr.(*net.UDPAddr).IP.String()` (lines 35-36) is a foreign type assertion and formatter. The address is a parameter, already given as the bytes of the IP string.
- Handler behaviour and `conn.Close()` (lines 39, 41): these are foreign calls. Dispatch is modelled only as which handler receives the connection, or no dispatch.
- The error branch of `ServeUDP` (lines 37-41): it closes the connection and then still calls `ServeUDP` on the nil handler returned with the error. It can only run if the pool empties between the unlocked check at line 31 and the locked one at line 60, which is a concurrency race. In the sequential model `Next` cannot fail after that check, and the match in `ServeUDP` leaves that case out.
- 32-bit `int`: on a 32-bit platform `int(hash(...))` at line 64 can be negative. The model takes the 64-bit reading, a non-negative integer, where Go's `%` and Dafny's `%` agree.
- The `weight` field is kept as inert data: it is always 0 and no selection reads it.
- Empty pool: lines 31-34 log and return without closing the connection. `ServeUDP` models that as `NoDispatch`.
