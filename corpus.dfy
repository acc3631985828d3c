/** The fixed knowledge corpus the retriever scores (RAG_KNOWLEDGE_BASE in constants.ts). */
module Corpus {
  import opened Types

  const KnowledgeBase: seq<RAGChunk> := [
    RAGChunk(
      "sys-dyn-core",
      ["system", "dynamics", "stocks", "flows", "loops", "feedback"],
      "[System Dynamics Core]\n" +
      "- Stocks: Accumulations (Memory, Database, Variables).\n" +
      "- Flows: Changes over time (Functions, API calls, I/O).\n" +
      "- Feedback Loops: The transmission of information about the stock back to the flow.\n" +
      "- Balancing Loop (B-Loop): Goal-seeking stability (e.g., Thermostat, Retry Logic).\n" +
      "- Reinforcing Loop (R-Loop): Compounding growth/decay (e.g., Viral effects, Infinite Recursion)."),
    RAGChunk(
      "sys-arch",
      ["archetypes", "meadows", "leverage", "limits"],
      "[System Archetypes & Leverage]\n" +
      "- Limits to Growth: An R-Loop hits a resource constraint (B-Loop).\n" +
      "- Shifting the Burden: Solving symptoms instead of root causes.\n" +
      "- Meadows Leverage Points: Constants (L12) are weak. Structure (L3) and Paradigm (L1) are strong.\n" +
      "- Delays: The time between action and result. Major source of system oscillation."),
    RAGChunk(
      "py-basics",
      ["python", "variables", "syntax", "loops", "control"],
      "[Python Foundation]\n" +
      "- Variables are Stocks.\n" +
      "- Functions are Flows.\n" +
      "- While/For loops are Control Structures.\n" +
      "- Recursion is a Reinforcing Loop.\n" +
      "- 'break' statements act as B-Loop terminators."),
    RAGChunk(
      "prompt-eng",
      ["prompt", "cot", "rag", "few-shot", "chain", "thought"],
      "[Prompt Engineering Strategies]\n" +
      "- Zero-Shot: Direct instruction.\n" +
      "- Few-Shot: Providing examples (Analogous to training data).\n" +
      "- Chain of Thought (CoT): Forcing the model to output reasoning steps (System 2 thinking).\n" +
      "- RAG: Injecting non-parametric knowledge (Context) into the prompt."),
    RAGChunk(
      "biz-ai",
      ["business", "genai", "divide", "roi", "nanda", "agentic"],
      "[AI in Business 2025]\n" +
      "- GenAI Divide: 5% success rate requires structural change, not just tools.\n" +
      "- Shadow AI: Unofficial usage outpaces governance.\n" +
      "- Agentic Web: Transition from UI-based apps to Intent-based agents.")
  ]
}
